/**
 * EIP-712 structs in general: named members with values, from which both the type string ("Definition of
 * encodeType") and the hashed data ("Definition of encodeData") are derived. The write and trade digests are
 * shown to be such structs, member by member.
 */
module TypedData {
  import opened Text
  import opened Words
  import opened Actions
  import opened WriteDigest
  import opened TradeDigest

  /** A member's value under its Solidity type. */
  datatype Value =
    | Bytes32(word: Word)
    | AddressOf(address: Address20)
    | Uint256(n: U128)
    | Uint256Word(word: Word)
    | Uint128(n: U128)
    | Flag(b: bool)
    | Bytes(bytes: seq<Byte>)
    | Str(text: string)

  datatype Member = Member(name: string, value: Value)

  function TypeName(v: Value): (s: string) {
    match v
    case Bytes32(_) => "bytes32"
    case AddressOf(_) => "address"
    case Uint256(_) => "uint256"
    case Uint256Word(_) => "uint256"
    case Uint128(_) => "uint128"
    case Flag(_) => "bool"
    case Bytes(_) => "bytes"
    case Str(_) => "string"
  }

  /** Atomic values as 32-byte big-endian numbers or words, dynamic ones hashed. */
  function EncodeData(h: Hash, v: Value): (w: Word) {
    match v
    case Bytes32(word) => word
    case AddressOf(a) => BigEndian(FromBigEndian(a), 32)
    case Uint256(n) => BigEndian(n, 32)
    case Uint256Word(word) => word
    case Uint128(n) => BigEndian(n, 32)
    case Flag(b) => BigEndian(if b then 1 else 0, 32)
    case Bytes(b) => h(b)
    case Str(s) => h(Utf8(s))
  }

  function MemberText(m: Member): (s: string) {
    Typed(TypeName(m.value), m.name)
  }

  function MemberTexts(members: seq<Member>): (r: seq<string>)
    ensures |r| == |members| && forall i :: 0 <= i < |r| ==> r[i] == MemberText(members[i])
  {
    seq(|members|, i requires 0 <= i < |members| => MemberText(members[i]))
  }

  function TypeText(name: string, members: seq<Member>): (s: string) {
    name + "(" + Commas(MemberTexts(members)) + ")"
  }

  function DataWords(h: Hash, members: seq<Member>): (r: seq<Word>)
    ensures |r| == |members| && forall i :: 0 <= i < |r| ==> r[i] == EncodeData(h, members[i].value)
  {
    seq(|members|, i requires 0 <= i < |members| => EncodeData(h, members[i].value))
  }

  function StructWords(h: Hash, name: string, members: seq<Member>): (r: seq<Word>) {
    [h(Utf8(TypeText(name, members)))] + DataWords(h, members)
  }

  function StructHash(h: Hash, name: string, members: seq<Member>): (w: Word) {
    h(Concat(StructWords(h, name, members)))
  }

  /** The digest to sign: a domain struct and a message struct. */
  function TypedDigest(h: Hash, domain: seq<Member>, name: string, message: seq<Member>): (w: Word) {
    h([0x19, 0x01] + StructHash(h, "EIP712Domain", domain) + StructHash(h, name, message))
  }

  // ---------------------------------------------------------------- the encoders

  lemma {:induction false} ZeroBytes(n: nat)
    ensures BigEndian(0, n) == Zeros(n)
  {
    if n > 0 {
      ZeroBytes(n - 1);
    }
  }

  /** A number that fits n bytes has zeros in front of them. */
  lemma {:induction false} BigEndianPads(v: nat, n: nat, m: nat)
    requires v < Pow256(n)
    ensures BigEndian(v, m + n) == Zeros(m) + BigEndian(v, n)
    decreases n
  {
    if n == 0 {
      ZeroBytes(m);
    } else {
      assert v / 256 < Pow256(n - 1);
      BigEndianPads(v / 256, n - 1, m);
    }
  }

  /** Every encoder of the source is the generic one. */
  lemma NumberAgrees(h: Hash, v: U128)
    ensures EncodeU256(v) == EncodeData(h, Uint256(v)) == EncodeData(h, Uint128(v))
  {
    BoundsAsPowers();
    BigEndianPads(v, 16, 16);
  }

  lemma ChainAgrees(h: Hash, c: U64)
    ensures EncodeU64(c) == EncodeData(h, Uint256(c))
  {
    BoundsAsPowers();
    BigEndianPads(c, 8, 24);
  }

  lemma AddressAgrees(h: Hash, a: Address20)
    ensures EncodeAddress(a) == EncodeData(h, AddressOf(a))
  {
    FromBigEndianBound(a);
    BigEndianPads(FromBigEndian(a), 20, 12);
    BigEndianOfFrom(a);
  }

  lemma FlagAgrees(h: Hash, b: bool)
    ensures EncodeBool(b) == EncodeData(h, Flag(b))
  {
    var bit := if b then 1 else 0;
    assert Pow256(1) == 256 && BigEndian(bit, 1) == [bit];
    BigEndianPads(bit, 1, 31);
  }

  // ---------------------------------------------------------------- write authorizations

  predicate WriteTypes(t: DomainTexts) {
    t.domainType == WRITE_DOMAIN_TYPE && t.primaryType == WRITE_TYPE
  }

  function WriteDomain(h: Hash, t: DomainTexts): (r: seq<Member>) {
    [Member("name", Str(t.name)), Member("version", Str(t.version)), Member("chainId", Uint256(84532)),
     Member("salt", Bytes32(h(Utf8(t.saltPreimage))))]
  }

  function WriteMembers(action: string, account: Address20, payload: seq<Byte>, nonce: Word, deadline: U128,
                        environment: string, key: string): (r: seq<Member>) {
    [Member("action", Str(action)), Member("account", AddressOf(account)), Member("payload", Bytes(payload)),
     Member("nonce", Uint256Word(nonce)), Member("deadline", Uint256(deadline)),
     Member("environment", Str(environment)), Member("idempotencyKey", Str(key))]
  }

  /** The signed members: a past deadline is signed as 0, an absent key as the empty one. */
  function WriteMessage(t: DomainTexts, w: SignedWrite, account: Address20): (r: seq<Member>) {
    WriteMembers(ActionName(w.action), account, w.payload, w.nonce, if w.deadlineMs < 0 then 0 else w.deadlineMs,
                 t.environment, if w.idempotencyKey.Some? then w.idempotencyKey.value else "")
  }

  lemma WriteDomainType(h: Hash, t: DomainTexts)
    ensures TypeText("EIP712Domain", WriteDomain(h, t)) == WRITE_DOMAIN_TYPE
  {
    assert MemberTexts(WriteDomain(h, t)) == [
      Typed("string", "name"), Typed("string", "version"), Typed("uint256", "chainId"), Typed("bytes32", "salt")];
  }

  lemma WriteMessageType(t: DomainTexts, w: SignedWrite, account: Address20)
    ensures TypeText("WriteAuthorization", WriteMessage(t, w, account)) == WRITE_TYPE
  {
    assert MemberTexts(WriteMessage(t, w, account)) == [
      Typed("string", "action"), Typed("address", "account"), Typed("bytes", "payload"), Typed("uint256", "nonce"),
      Typed("uint256", "deadline"), Typed("string", "environment"), Typed("string", "idempotencyKey")];
  }

  lemma WriteDomainData(h: Hash, t: DomainTexts)
    ensures [h(Utf8(t.domainType))] + DataWords(h, WriteDomain(h, t)) == SeparatorWords(h, t)
  {
    NumberAgrees(h, 84532);
  }

  lemma WriteMemberData(h: Hash, typeHash: Word, action: string, account: Address20, payload: seq<Byte>, nonce: Word,
                        deadline: U128, environment: string, key: string)
    ensures [typeHash] + DataWords(h, WriteMembers(action, account, payload, nonce, deadline, environment, key)) ==
            [typeHash, h(Utf8(action)), EncodeAddress(account), h(payload), nonce, EncodeU256(deadline),
             h(Utf8(environment)), h(Utf8(key))]
  {
    NumberAgrees(h, deadline);
    AddressAgrees(h, account);
  }

  lemma WriteMessageData(h: Hash, t: DomainTexts, w: SignedWrite, account: Address20)
    ensures [h(Utf8(t.primaryType))] + DataWords(h, WriteMessage(t, w, account)) ==
            MessageWords(h, FrameOf(h, t), w, account)
  {
    WriteMemberData(h, h(Utf8(t.primaryType)), ActionName(w.action), account, w.payload, w.nonce, ClampedDeadline(w),
                    t.environment, KeyText(w));
  }

  /** A write authorization is signed as the EIP-712 struct its type string names, under its domain. */
  lemma WriteIsTyped(h: Hash, t: DomainTexts, w: SignedWrite)
    requires WriteTypes(t)
    ensures Digest(h, t, w) ==
      match AccountBytes(w.account)
      case None => None
      case Some(account) => Some(TypedDigest(h, WriteDomain(h, t), "WriteAuthorization", WriteMessage(t, w, account)))
  {
    if AccountBytes(w.account).Some? {
      var account := AccountBytes(w.account).value;
      WriteDomainType(h, t);
      WriteDomainData(h, t);
      WriteMessageType(t, w, account);
      WriteMessageData(h, t, w, account);
    }
  }

  // ---------------------------------------------------------------- trades

  predicate TradeTypes(t: TradeTexts) {
    t.domainType == TRADE_DOMAIN_TYPE && t.v1Type == TRADE_V1_TYPE && t.v2Type == TRADE_V2_TYPE
  }

  /** The frozen texts name the types. */
  lemma FrozenTypes()
    ensures WriteTypes(WRITE_AUTH_TEXTS) && TradeTypes(TRADE_TEXTS)
  {
  }

  function TradeDomain(t: TradeTexts, v: Version, chainId: U64, engine: Address20): (r: seq<Member>) {
    [Member("name", Str(t.name)), Member("version", Str(if v == V1 then "1" else "2")),
     Member("chainId", Uint256(chainId)), Member("verifyingContract", AddressOf(engine))]
  }

  function TradeMessage(p: Payload, buyer: Address20, seller: Address20, v: Version): (r: seq<Member>) {
    [Member("intentId", Bytes32(p.intentId)), Member("buyer", AddressOf(buyer)), Member("seller", AddressOf(seller)),
     Member("marketId", Uint256(p.marketId)), Member("sizeDelta1e8", Uint128(p.size)),
     Member("executionPrice1e8", Uint128(p.price))]
    + (if v == V1 then [] else
         [Member("maxExecutionPrice1e8", Uint128(p.maxPrice)), Member("minExecutionPrice1e8", Uint128(p.minPrice))])
    + [Member("buyerIsMaker", Flag(p.buyerIsMaker)), Member("buyerNonce", Uint256(p.buyerNonce)),
       Member("sellerNonce", Uint256(p.sellerNonce)), Member("deadline", Uint256(p.deadline))]
  }

  lemma TradeDomainType(t: TradeTexts, v: Version, chainId: U64, engine: Address20)
    ensures TypeText("EIP712Domain", TradeDomain(t, v, chainId, engine)) == TRADE_DOMAIN_TYPE
  {
    assert MemberTexts(TradeDomain(t, v, chainId, engine)) == [
      Typed("string", "name"), Typed("string", "version"), Typed("uint256", "chainId"),
      Typed("address", "verifyingContract")];
  }

  lemma TradeMessageType(p: Payload, buyer: Address20, seller: Address20, v: Version)
    ensures TypeText("PerpTrade", TradeMessage(p, buyer, seller, v)) == if v == V1 then TRADE_V1_TYPE else TRADE_V2_TYPE
  {
    var one := [
      Typed("bytes32", "intentId"), Typed("address", "buyer"), Typed("address", "seller"), Typed("uint256", "marketId"),
      Typed("uint128", "sizeDelta1e8"), Typed("uint128", "executionPrice1e8"), Typed("bool", "buyerIsMaker"),
      Typed("uint256", "buyerNonce"), Typed("uint256", "sellerNonce"), Typed("uint256", "deadline")];
    var two := [
      Typed("bytes32", "intentId"), Typed("address", "buyer"), Typed("address", "seller"), Typed("uint256", "marketId"),
      Typed("uint128", "sizeDelta1e8"), Typed("uint128", "executionPrice1e8"),
      Typed("uint128", "maxExecutionPrice1e8"), Typed("uint128", "minExecutionPrice1e8"),
      Typed("bool", "buyerIsMaker"), Typed("uint256", "buyerNonce"), Typed("uint256", "sellerNonce"),
      Typed("uint256", "deadline")];
    assert MemberTexts(TradeMessage(p, buyer, seller, v)) == if v == V1 then one else two;
  }

  lemma TradeMessageData(h: Hash, t: TradeTexts, p: Payload, buyer: Address20, seller: Address20, v: Version)
    ensures [h(Utf8(if v == V1 then t.v1Type else t.v2Type))] + DataWords(h, TradeMessage(p, buyer, seller, v)) ==
            TradeWords(h, t, p, buyer, seller, v)
  {
    AddressAgrees(h, buyer);
    AddressAgrees(h, seller);
    FlagAgrees(h, p.buyerIsMaker);
    NumberAgrees(h, p.marketId);
    NumberAgrees(h, p.size);
    NumberAgrees(h, p.price);
    NumberAgrees(h, p.maxPrice);
    NumberAgrees(h, p.minPrice);
    NumberAgrees(h, p.buyerNonce);
    NumberAgrees(h, p.sellerNonce);
    NumberAgrees(h, p.deadline);
  }

  lemma TradeDomainData(h: Hash, t: TradeTexts, v: Version, chainId: U64, contract: string, engine: Address20)
    ensures [h(Utf8(t.domainType))] + DataWords(h, TradeDomain(t, v, chainId, engine)) ==
            DomainWords(h, t, DomainFor(v, chainId, contract), engine)
  {
    ChainAgrees(h, chainId);
    AddressAgrees(h, engine);
  }

  /** A trade is signed as the EIP-712 struct its version's type string names, under its engine's domain. */
  lemma TradeIsTyped(h: Hash, t: TradeTexts, p: Payload, v: Version, chainId: U64, contract: string)
    requires TradeTypes(t) && ValidPayload(p) && AccountBytes(contract).Some?
    ensures AccountBytes(p.buyer).Some? && AccountBytes(p.seller).Some?
    ensures
      var engine, buyer, seller := AccountBytes(contract).value, AccountBytes(p.buyer).value,
                                   AccountBytes(p.seller).value;
      TradeDigestFor(h, t, p, DomainFor(v, chainId, contract), v) ==
        Ok(TypedDigest(h, TradeDomain(t, v, chainId, engine), "PerpTrade", TradeMessage(p, buyer, seller, v)))
  {
    var engine, buyer, seller := AccountBytes(contract).value, AccountBytes(p.buyer).value,
                                 AccountBytes(p.seller).value;
    TradeDomainType(t, v, chainId, engine);
    TradeDomainData(h, t, v, chainId, contract, engine);
    TradeMessageType(p, buyer, seller, v);
    TradeMessageData(h, t, p, buyer, seller, v);
  }
}
