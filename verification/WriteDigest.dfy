/**
 * The EIP-712 digest of a write authorization ("Definition of encodeData" and "Definition of
 * domainSeparator" in EIP-712), over an arbitrary 32-byte hash.
 *
 * No hash into 32 bytes is injective, so nothing here assumes one: each binding theorem says that
 * equal digests mean equal requests, or else two different byte strings that were actually hashed
 * along the way have the same hash.
 */
module WriteDigest {
  import opened Text
  import opened Words
  import opened Actions

  type Hash = seq<Byte> -> Word

  /** Two different members of s with one hash. */
  ghost predicate Collides(h: Hash, s: set<seq<Byte>>) {
    exists x, y :: x in s && y in s && x != y && h(x) == h(y)
  }

  lemma SameHash(h: Hash, s: set<seq<Byte>>, x: seq<Byte>, y: seq<Byte>)
    requires x in s && y in s && h(x) == h(y)
    requires !Collides(h, s)
    ensures x == y
  {
  }

  // ---------------------------------------------------------------- words side by side

  function Concat(words: seq<Word>): (b: seq<Byte>) {
    if words == [] then [] else words[0] + Concat(words[1..])
  }

  /** Equally many fixed-width words can be read back from their concatenation. */
  lemma {:induction false} ConcatInjective(a: seq<Word>, b: seq<Word>)
    requires |a| == |b| && Concat(a) == Concat(b)
    ensures a == b
  {
    if a != [] {
      ConcatUnique(a[0], Concat(a[1..]), b[0], Concat(b[1..]));
      ConcatInjective(a[1..], b[1..]);
      assert a == [a[0]] + a[1..] && b == [b[0]] + b[1..];
    }
  }

  // ---------------------------------------------------------------- the write authorization

  /** The frozen texts of the off-chain domain. */
  datatype DomainTexts = DomainTexts(
    domainType: string,
    name: string,
    version: string,
    saltPreimage: string,
    primaryType: string,
    environment: string
  )

  const CHAIN_ID: U64 := 84532

  const WRITE_DOMAIN_TYPE: string :=
    "EIP712Domain" + "(" + Commas([
      Typed("string", "name"), Typed("string", "version"), Typed("uint256", "chainId"), Typed("bytes32", "salt")]) + ")"

  const WRITE_TYPE: string :=
    "WriteAuthorization" + "(" + Commas([
      Typed("string", "action"), Typed("address", "account"), Typed("bytes", "payload"), Typed("uint256", "nonce"),
      Typed("uint256", "deadline"), Typed("string", "environment"), Typed("string", "idempotencyKey")]) + ")"

  const WRITE_AUTH_TEXTS := DomainTexts(
    WRITE_DOMAIN_TYPE, "DeOpt API Write", "1", "deopt-api-write:base-sepolia:v1", WRITE_TYPE, "base-sepolia")

  /** Everything the wallet signs over, as the server reconstructs it. */
  datatype SignedWrite = SignedWrite(
    action: Action,
    account: string,
    payload: seq<Byte>,
    nonce: Word,
    deadlineMs: I64,
    idempotencyKey: Option<string>
  )

  function KeyText(w: SignedWrite): (s: string) {
    match w.idempotencyKey
    case Some(key) => key
    case None => ""
  }

  function ClampedDeadline(w: SignedWrite): (d: U128) {
    if w.deadlineMs < 0 then 0 else w.deadlineMs
  }

  function SeparatorWords(h: Hash, t: DomainTexts): (r: seq<Word>)
    ensures |r| == 5
  {
    [h(Utf8(t.domainType)), h(Utf8(t.name)), h(Utf8(t.version)), EncodeU256(CHAIN_ID), h(Utf8(t.saltPreimage))]
  }

  function DomainSeparator(h: Hash, t: DomainTexts): (w: Word) {
    h(Concat(SeparatorWords(h, t)))
  }

  /** The hashes that do not depend on the request. */
  datatype Frame = Frame(domain: Word, typeHash: Word, environmentHash: Word)

  function FrameOf(h: Hash, t: DomainTexts): (f: Frame) {
    Frame(DomainSeparator(h, t), h(Utf8(t.primaryType)), h(Utf8(t.environment)))
  }

  function MessageWords(h: Hash, f: Frame, w: SignedWrite, account: Address20): (r: seq<Word>)
    ensures |r| == 8
  {
    [f.typeHash, h(Utf8(ActionName(w.action))), EncodeAddress(account), h(w.payload), w.nonce,
     EncodeU256(ClampedDeadline(w)), f.environmentHash, h(Utf8(KeyText(w)))]
  }

  function MessagePreimage(h: Hash, f: Frame, w: SignedWrite, account: Address20): (b: seq<Byte>) {
    Concat(MessageWords(h, f, w, account))
  }

  function EnvelopePreimage(h: Hash, f: Frame, w: SignedWrite, account: Address20): (b: seq<Byte>) {
    [0x19, 0x01] + f.domain + h(MessagePreimage(h, f, w, account))
  }

  function AccountBytes(account: string): (r: Option<Address20>) {
    match ParseHex0x(account, 20)
    case Some(b) => PrintParsed(account, 20); Some(b)
    case None => None
  }

  function DigestIn(h: Hash, f: Frame, w: SignedWrite): (r: Option<Word>) {
    match AccountBytes(w.account)
    case None => None
    case Some(account) => Some(h(EnvelopePreimage(h, f, w, account)))
  }

  /** `write_auth_eip712_digest`; None where the account is not an EVM address. */
  function Digest(h: Hash, t: DomainTexts, w: SignedWrite): (r: Option<Word>) {
    DigestIn(h, FrameOf(h, t), w)
  }

  /** `request_digest`: the digest hashed once more, as the challenge row stores it. */
  function RequestDigest(h: Hash, t: DomainTexts, w: SignedWrite): (r: Option<Word>) {
    match Digest(h, t, w)
    case None => None
    case Some(d) => Some(h(d))
  }

  function PreimagesIn(h: Hash, f: Frame, w: SignedWrite): (s: set<seq<Byte>>) {
    match AccountBytes(w.account)
    case None => {}
    case Some(account) =>
      var envelope := EnvelopePreimage(h, f, w, account);
      {Utf8(ActionName(w.action)), w.payload, Utf8(KeyText(w)), MessagePreimage(h, f, w, account),
       envelope, h(envelope)}
  }

  /** The byte strings hashed while computing a request digest that depend on the request. */
  function Preimages(h: Hash, t: DomainTexts, w: SignedWrite): (s: set<seq<Byte>>) {
    PreimagesIn(h, FrameOf(h, t), w)
  }

  /** Equal as far as a signature can tell: case of the address, sign of a past deadline, and
      absent against empty key are not signed. */
  predicate SameWrite(a: SignedWrite, b: SignedWrite) {
    && a.action == b.action
    && AccountBytes(a.account) == AccountBytes(b.account)
    && a.payload == b.payload
    && a.nonce == b.nonce
    && ClampedDeadline(a) == ClampedDeadline(b)
    && KeyText(a) == KeyText(b)
  }

  lemma MessageWordsBind(h: Hash, f: Frame, a: SignedWrite, aa: Address20, b: SignedWrite, bb: Address20)
    requires MessageWords(h, f, a, aa) == MessageWords(h, f, b, bb)
    ensures aa == bb && a.nonce == b.nonce && ClampedDeadline(a) == ClampedDeadline(b)
    ensures h(Utf8(ActionName(a.action))) == h(Utf8(ActionName(b.action)))
    ensures h(a.payload) == h(b.payload)
    ensures h(Utf8(KeyText(a))) == h(Utf8(KeyText(b)))
  {
    var u, v := MessageWords(h, f, a, aa), MessageWords(h, f, b, bb);
    assert u[2] == v[2] && u[5] == v[5];
    EncodeAddressInjective(aa, bb);
    EncodeU256Injective(ClampedDeadline(a), ClampedDeadline(b));
    assert u[1] == v[1] && u[3] == v[3] && u[4] == v[4] && u[7] == v[7];
  }

  /** The outer layers: equal digests give equal message words. */
  lemma EnvelopeBinds(h: Hash, f: Frame, a: SignedWrite, b: SignedWrite, s: set<seq<Byte>>)
    requires DigestIn(h, f, a).Some? && DigestIn(h, f, a) == DigestIn(h, f, b)
    requires PreimagesIn(h, f, a) <= s && PreimagesIn(h, f, b) <= s && !Collides(h, s)
    ensures MessageWords(h, f, a, AccountBytes(a.account).value) == MessageWords(h, f, b, AccountBytes(b.account).value)
  {
    var aa, bb := AccountBytes(a.account).value, AccountBytes(b.account).value;
    var ma, mb := MessagePreimage(h, f, a, aa), MessagePreimage(h, f, b, bb);
    SameHash(h, s, EnvelopePreimage(h, f, a, aa), EnvelopePreimage(h, f, b, bb));
    ConcatUnique([0x19, 0x01] + f.domain, h(ma), [0x19, 0x01] + f.domain, h(mb));
    SameHash(h, s, ma, mb);
    ConcatInjective(MessageWords(h, f, a, aa), MessageWords(h, f, b, bb));
  }

  /** The inner layer: equal message words give equal requests. */
  lemma MessageBinds(h: Hash, f: Frame, a: SignedWrite, b: SignedWrite, s: set<seq<Byte>>)
    requires AccountBytes(a.account).Some? && AccountBytes(b.account).Some?
    requires
      MessageWords(h, f, a, AccountBytes(a.account).value) == MessageWords(h, f, b, AccountBytes(b.account).value)
    requires PreimagesIn(h, f, a) <= s && PreimagesIn(h, f, b) <= s && !Collides(h, s)
    ensures SameWrite(a, b)
  {
    MessageWordsBind(h, f, a, AccountBytes(a.account).value, b, AccountBytes(b.account).value);
    SameHash(h, s, Utf8(ActionName(a.action)), Utf8(ActionName(b.action)));
    SameHash(h, s, a.payload, b.payload);
    SameHash(h, s, Utf8(KeyText(a)), Utf8(KeyText(b)));
    Utf8Injective(ActionName(a.action), ActionName(b.action));
    ActionNameInjective(a.action, b.action);
    Utf8Injective(KeyText(a), KeyText(b));
  }

  lemma DigestInBinds(h: Hash, f: Frame, a: SignedWrite, b: SignedWrite)
    requires DigestIn(h, f, a).Some? && DigestIn(h, f, b).Some?
    requires h(DigestIn(h, f, a).value) == h(DigestIn(h, f, b).value)
    ensures SameWrite(a, b) || Collides(h, PreimagesIn(h, f, a) + PreimagesIn(h, f, b))
  {
    var s := PreimagesIn(h, f, a) + PreimagesIn(h, f, b);
    if !Collides(h, s) {
      SameHash(h, s, DigestIn(h, f, a).value, DigestIn(h, f, b).value);
      EnvelopeBinds(h, f, a, b, s);
      MessageBinds(h, f, a, b, s);
    }
  }

  /** Equal request digests: the requests are the same as signed, or a hash collision is in hand. */
  lemma RequestDigestBinds(h: Hash, t: DomainTexts, a: SignedWrite, b: SignedWrite)
    requires RequestDigest(h, t, a).Some? && RequestDigest(h, t, a) == RequestDigest(h, t, b)
    ensures SameWrite(a, b) || Collides(h, Preimages(h, t, a) + Preimages(h, t, b))
  {
    DigestInBinds(h, FrameOf(h, t), a, b);
  }

  /** And what is not signed does not change the digest. */
  lemma SameWriteSameDigest(h: Hash, t: DomainTexts, a: SignedWrite, b: SignedWrite)
    requires SameWrite(a, b)
    ensures Digest(h, t, a) == Digest(h, t, b) && RequestDigest(h, t, a) == RequestDigest(h, t, b)
  {
  }
}
