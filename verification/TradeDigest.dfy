/** The frozen perp trade and its EIP-712 digest under the two protocol versions. */
module TradeDigest {
  import opened Text
  import opened Words
  import opened WriteDigest

  datatype Version = V1 | V2

  datatype Payload = Payload(
    intentId: Word,
    buyer: string,
    seller: string,
    marketId: U128,
    size: U128,
    price: U128,
    maxPrice: U128,
    minPrice: U128,
    buyerIsMaker: bool,
    buyerNonce: U128,
    sellerNonce: U128,
    deadline: U128
  )

  datatype TradeError =
    | NotLive | Unauthorized | SameParty | BadDecimal | ZeroSize | ZeroPrice | MarkUnavailable | V1Bounds
    | NonceUnavailable | BadIntentId | MalformedAddress | AboveLimit | BelowLimit | NoEngine | NotCosignable
    | VersionMismatch | DeadlineOverflow | UnknownMarket | MissingMetadata | DeadlineExpired | CosignConflict
    | SignatureInvalid | TraderMismatch | MalformedSignature

  /** `PerpTradePayload::validate`: the first complaint, if any. */
  function Complaint(p: Payload): (e: Option<TradeError>) {
    if p.intentId == Zeros(32) then Some(BadIntentId)
    else if AccountBytes(p.buyer).None? || AccountBytes(p.seller).None? then Some(MalformedAddress)
    else if p.size == 0 then Some(ZeroSize)
    else if p.price == 0 then Some(ZeroPrice)
    else if p.maxPrice != 0 && p.price > p.maxPrice then Some(AboveLimit)
    else if p.minPrice != 0 && p.price < p.minPrice then Some(BelowLimit)
    else None
  }

  predicate ValidPayload(p: Payload) {
    Complaint(p).None?
  }

  /** The frozen texts. */
  datatype TradeTexts = TradeTexts(domainType: string, name: string, v1Type: string, v2Type: string)

  const TRADE_DOMAIN_TYPE: string :=
    "EIP712Domain" + "(" + Commas([
      Typed("string", "name"), Typed("string", "version"), Typed("uint256", "chainId"),
      Typed("address", "verifyingContract")]) + ")"

  const TRADE_V1_TYPE: string :=
    "PerpTrade" + "(" + Commas([
      Typed("bytes32", "intentId"), Typed("address", "buyer"), Typed("address", "seller"), Typed("uint256", "marketId"),
      Typed("uint128", "sizeDelta1e8"), Typed("uint128", "executionPrice1e8"), Typed("bool", "buyerIsMaker"),
      Typed("uint256", "buyerNonce"), Typed("uint256", "sellerNonce"), Typed("uint256", "deadline")]) + ")"

  const TRADE_V2_TYPE: string :=
    "PerpTrade" + "(" + Commas([
      Typed("bytes32", "intentId"), Typed("address", "buyer"), Typed("address", "seller"), Typed("uint256", "marketId"),
      Typed("uint128", "sizeDelta1e8"), Typed("uint128", "executionPrice1e8"),
      Typed("uint128", "maxExecutionPrice1e8"), Typed("uint128", "minExecutionPrice1e8"),
      Typed("bool", "buyerIsMaker"), Typed("uint256", "buyerNonce"), Typed("uint256", "sellerNonce"),
      Typed("uint256", "deadline")]) + ")"

  const TRADE_TEXTS := TradeTexts(TRADE_DOMAIN_TYPE, "DeOptV2-PerpMatchingEngine", TRADE_V1_TYPE, TRADE_V2_TYPE)

  function VersionText(v: Version): (s: string) {
    match v case V1 => ['1'] case V2 => ['2']
  }

  datatype Domain = Domain(version: string, chainId: U64, contract: string)

  function DomainFor(v: Version, chainId: U64, contract: string): (d: Domain) {
    Domain(VersionText(v), chainId, contract)
  }

  function DomainWords(h: Hash, t: TradeTexts, d: Domain, contract: Address20): (r: seq<Word>)
    ensures |r| == 5
  {
    [h(Utf8(t.domainType)), h(Utf8(t.name)), h(Utf8(d.version)), EncodeU64(d.chainId), EncodeAddress(contract)]
  }

  /** What both versions sign, and the bounds only version 2 signs. */
  function TradeWords(h: Hash, t: TradeTexts, p: Payload, buyer: Address20, seller: Address20,
                      v: Version): (r: seq<Word>)
    ensures |r| == if v == V1 then 11 else 13
  {
    var head := [h(Utf8(if v == V1 then t.v1Type else t.v2Type)), p.intentId,
                 EncodeAddress(buyer), EncodeAddress(seller),
                 EncodeU256(p.marketId), EncodeU256(p.size), EncodeU256(p.price)];
    var tail := [EncodeBool(p.buyerIsMaker), EncodeU256(p.buyerNonce), EncodeU256(p.sellerNonce),
                 EncodeU256(p.deadline)];
    if v == V1 then head + tail else head + [EncodeU256(p.maxPrice), EncodeU256(p.minPrice)] + tail
  }

  /** The two inner preimages of a digest. */
  datatype Parts = Parts(domain: seq<Byte>, trade: seq<Byte>)

  function PartsOf(h: Hash, t: TradeTexts, p: Payload, d: Domain, v: Version): (r: Result<Parts, TradeError>) {
    if d.version != VersionText(v) then Err(VersionMismatch)
    else
      match AccountBytes(d.contract)
      case None => Err(MalformedAddress)
      case Some(contract) =>
        if Complaint(p).Some? then Err(Complaint(p).value)
        else
          var buyer, seller := AccountBytes(p.buyer).value, AccountBytes(p.seller).value;
          Ok(Parts(Concat(DomainWords(h, t, d, contract)), Concat(TradeWords(h, t, p, buyer, seller, v))))
  }

  function Envelope(h: Hash, parts: Parts): (b: seq<Byte>) {
    [0x19, 0x01] + h(parts.domain) + h(parts.trade)
  }

  /** `perp_trade_digest_bytes_for_version`. */
  function TradeDigestFor(h: Hash, t: TradeTexts, p: Payload, d: Domain, v: Version): (r: Result<Word, TradeError>) {
    match PartsOf(h, t, p, d, v)
    case Err(e) => Err(e)
    case Ok(parts) => Ok(h(Envelope(h, parts)))
  }

  /** The byte strings hashed for a digest that depend on the trade or its domain. */
  function TradePreimages(h: Hash, t: TradeTexts, p: Payload, d: Domain, v: Version): (s: set<seq<Byte>>) {
    match PartsOf(h, t, p, d, v)
    case Err(_) => {}
    case Ok(parts) => {Utf8(d.version), parts.domain, parts.trade, Envelope(h, parts)}
  }

  /** Equal as far as a signature of this version can tell. */
  predicate SameTrade(v: Version, a: Payload, b: Payload) {
    && AccountBytes(a.buyer) == AccountBytes(b.buyer) && AccountBytes(a.seller) == AccountBytes(b.seller)
    && (a.intentId, a.marketId, a.size, a.price) == (b.intentId, b.marketId, b.size, b.price)
    && (a.buyerIsMaker, a.buyerNonce) == (b.buyerIsMaker, b.buyerNonce)
    && (a.sellerNonce, a.deadline) == (b.sellerNonce, b.deadline)
    && (v == V2 ==> a.maxPrice == b.maxPrice && a.minPrice == b.minPrice)
  }

  /** Equal digests: the inner preimages are equal, or a collision is in hand. */
  lemma EnvelopeParts(h: Hash, a: Parts, b: Parts, s: set<seq<Byte>>)
    requires h(Envelope(h, a)) == h(Envelope(h, b)) && !Collides(h, s)
    requires {a.domain, a.trade, Envelope(h, a), b.domain, b.trade, Envelope(h, b)} <= s
    ensures a == b
  {
    SameHash(h, s, Envelope(h, a), Envelope(h, b));
    ConcatUnique([0x19, 0x01] + h(a.domain), h(a.trade), [0x19, 0x01] + h(b.domain), h(b.trade));
    ConcatUnique([0x19, 0x01], h(a.domain), [0x19, 0x01], h(b.domain));
    SameHash(h, s, a.domain, b.domain);
    SameHash(h, s, a.trade, b.trade);
  }

  lemma DomainWordsBind(h: Hash, t: TradeTexts, a: Domain, aa: Address20, b: Domain, bb: Address20)
    requires Concat(DomainWords(h, t, a, aa)) == Concat(DomainWords(h, t, b, bb))
    ensures h(Utf8(a.version)) == h(Utf8(b.version)) && a.chainId == b.chainId && aa == bb
  {
    var u, v := DomainWords(h, t, a, aa), DomainWords(h, t, b, bb);
    ConcatInjective(u, v);
    assert u[2] == v[2] && u[3] == v[3] && u[4] == v[4];
    EncodeU64Injective(a.chainId, b.chainId);
    EncodeAddressInjective(aa, bb);
  }

  lemma TradeHeadBinds(h: Hash, t: TradeTexts, v: Version, a: Payload, aBuyer: Address20, aSeller: Address20,
                       b: Payload, bBuyer: Address20, bSeller: Address20)
    requires TradeWords(h, t, a, aBuyer, aSeller, v) == TradeWords(h, t, b, bBuyer, bSeller, v)
    ensures aBuyer == bBuyer && aSeller == bSeller && a.intentId == b.intentId
    ensures a.marketId == b.marketId && a.size == b.size && a.price == b.price
  {
    var x, y := TradeWords(h, t, a, aBuyer, aSeller, v), TradeWords(h, t, b, bBuyer, bSeller, v);
    assert x[1] == y[1] && x[2] == y[2] && x[3] == y[3] && x[4] == y[4] && x[5] == y[5] && x[6] == y[6];
    EncodeAddressInjective(aBuyer, bBuyer);
    EncodeAddressInjective(aSeller, bSeller);
    EncodeU256Injective(a.marketId, b.marketId);
    EncodeU256Injective(a.size, b.size);
    EncodeU256Injective(a.price, b.price);
  }

  lemma TradeTailBinds(h: Hash, t: TradeTexts, v: Version, a: Payload, aBuyer: Address20, aSeller: Address20,
                       b: Payload, bBuyer: Address20, bSeller: Address20)
    requires TradeWords(h, t, a, aBuyer, aSeller, v) == TradeWords(h, t, b, bBuyer, bSeller, v)
    ensures a.buyerIsMaker == b.buyerIsMaker && a.buyerNonce == b.buyerNonce
    ensures a.sellerNonce == b.sellerNonce && a.deadline == b.deadline
    ensures v == V2 ==> a.maxPrice == b.maxPrice && a.minPrice == b.minPrice
  {
    var x, y := TradeWords(h, t, a, aBuyer, aSeller, v), TradeWords(h, t, b, bBuyer, bSeller, v);
    var k := if v == V1 then 7 else 9;
    assert x[k] == y[k] && x[k + 1] == y[k + 1] && x[k + 2] == y[k + 2] && x[k + 3] == y[k + 3];
    EncodeBoolInjective(a.buyerIsMaker, b.buyerIsMaker);
    EncodeU256Injective(a.buyerNonce, b.buyerNonce);
    EncodeU256Injective(a.sellerNonce, b.sellerNonce);
    EncodeU256Injective(a.deadline, b.deadline);
    if v == V2 {
      assert x[7] == y[7] && x[8] == y[8];
      EncodeU256Injective(a.maxPrice, b.maxPrice);
      EncodeU256Injective(a.minPrice, b.minPrice);
    }
  }

  /**
   * Equal digests, possibly under different versions and domains: the version, chain, contract and
   * every signed field agree, or a hash collision is in hand. In particular no signature for one
   * version serves the other.
   */
  lemma TradeDigestBinds(h: Hash, t: TradeTexts, a: Payload, da: Domain, va: Version, b: Payload, db: Domain,
                         vb: Version)
    requires TradeDigestFor(h, t, a, da, va).Ok? && TradeDigestFor(h, t, a, da, va) == TradeDigestFor(h, t, b, db, vb)
    ensures
      || (&& va == vb && da.chainId == db.chainId
          && AccountBytes(da.contract) == AccountBytes(db.contract) && SameTrade(va, a, b))
      || Collides(h, TradePreimages(h, t, a, da, va) + TradePreimages(h, t, b, db, vb))
  {
    var s := TradePreimages(h, t, a, da, va) + TradePreimages(h, t, b, db, vb);
    if !Collides(h, s) {
      var x, y := PartsOf(h, t, a, da, va).value, PartsOf(h, t, b, db, vb).value;
      EnvelopeParts(h, x, y, s);
      DomainWordsBind(h, t, da, AccountBytes(da.contract).value, db, AccountBytes(db.contract).value);
      SameHash(h, s, Utf8(da.version), Utf8(db.version));
      Utf8Injective(da.version, db.version);
      assert va == vb by { assert VersionText(va)[0] == VersionText(vb)[0]; }
      TradePartsBind(h, t, va, a, b);
    }
  }

  lemma TradePartsBind(h: Hash, t: TradeTexts, v: Version, a: Payload, b: Payload)
    requires ValidPayload(a) && ValidPayload(b)
    requires Concat(TradeWords(h, t, a, AccountBytes(a.buyer).value, AccountBytes(a.seller).value, v))
          == Concat(TradeWords(h, t, b, AccountBytes(b.buyer).value, AccountBytes(b.seller).value, v))
    ensures SameTrade(v, a, b)
  {
    var aBuyer, aSeller := AccountBytes(a.buyer).value, AccountBytes(a.seller).value;
    var bBuyer, bSeller := AccountBytes(b.buyer).value, AccountBytes(b.seller).value;
    ConcatInjective(TradeWords(h, t, a, aBuyer, aSeller, v), TradeWords(h, t, b, bBuyer, bSeller, v));
    TradeHeadBinds(h, t, v, a, aBuyer, aSeller, b, bBuyer, bSeller);
    TradeTailBinds(h, t, v, a, aBuyer, aSeller, b, bBuyer, bSeller);
  }

  /** And what a version does not sign does not change its digest: version 1 ignores the bounds. */
  lemma SameTradeSameDigest(h: Hash, t: TradeTexts, a: Payload, b: Payload, d: Domain, v: Version)
    requires ValidPayload(a) && ValidPayload(b) && SameTrade(v, a, b)
    ensures TradeDigestFor(h, t, a, d, v) == TradeDigestFor(h, t, b, d, v)
  {
  }

  // ---------------------------------------------------------------- writes and trades

  /** The byte strings that tell the two domains apart. */
  function SeparatingPreimages(h: Hash, t: DomainTexts, u: TradeTexts, w: SignedWrite, account: Address20, parts: Parts)
    : (s: set<seq<Byte>>)
  {
    {EnvelopePreimage(h, FrameOf(h, t), w, account), Envelope(h, parts), Concat(SeparatorWords(h, t)), parts.domain,
     Utf8(t.name), Utf8(u.name)}
  }

  lemma SeparatorNames(h: Hash, t: DomainTexts, u: TradeTexts, d: Domain, contract: Address20)
    requires Concat(SeparatorWords(h, t)) == Concat(DomainWords(h, u, d, contract))
    ensures h(Utf8(t.name)) == h(Utf8(u.name))
  {
    var x, y := SeparatorWords(h, t), DomainWords(h, u, d, contract);
    ConcatInjective(x, y);
    assert x[1] == y[1];
  }

  /** No digest is both this write's and this trade's, or else two of the strings hashed collide. */
  ghost predicate Separated(h: Hash, t: DomainTexts, u: TradeTexts, w: SignedWrite, p: Payload, d: Domain, v: Version) {
    Digest(h, t, w).Some? && TradeDigestFor(h, u, p, d, v) == Ok(Digest(h, t, w).value) ==>
      Collides(h, SeparatingPreimages(h, t, u, w, AccountBytes(w.account).value, PartsOf(h, u, p, d, v).value))
  }

  /** Different domain names separate every write from every trade. */
  lemma DomainsSeparate(h: Hash, t: DomainTexts, u: TradeTexts, w: SignedWrite, p: Payload, d: Domain, v: Version)
    requires t.name != u.name
    ensures Separated(h, t, u, w, p, d, v)
  {
    if Digest(h, t, w).Some? && TradeDigestFor(h, u, p, d, v) == Ok(Digest(h, t, w).value) {
      var f, account, parts := FrameOf(h, t), AccountBytes(w.account).value, PartsOf(h, u, p, d, v).value;
      var s := SeparatingPreimages(h, t, u, w, account, parts);
      if !Collides(h, s) {
        SameHash(h, s, EnvelopePreimage(h, f, w, account), Envelope(h, parts));
        var message := h(MessagePreimage(h, f, w, account));
        ConcatUnique([0x19, 0x01] + f.domain, message, [0x19, 0x01] + h(parts.domain), h(parts.trade));
        ConcatUnique([0x19, 0x01], f.domain, [0x19, 0x01], h(parts.domain));
        SameHash(h, s, Concat(SeparatorWords(h, t)), parts.domain);
        SeparatorNames(h, t, u, d, AccountBytes(d.contract).value);
        SameHash(h, s, Utf8(t.name), Utf8(u.name));
        Utf8Injective(t.name, u.name);
      }
    }
  }

  lemma FrozenNamesDiffer()
    ensures WRITE_AUTH_TEXTS.name != TRADE_TEXTS.name
  {
    assert |WRITE_AUTH_TEXTS.name| != |TRADE_TEXTS.name|;
  }

  /** With the frozen texts no signature authorizes both a write and a trade, short of a collision. */
  lemma WritesNeverTrade(h: Hash, w: SignedWrite, p: Payload, d: Domain, v: Version)
    ensures Separated(h, WRITE_AUTH_TEXTS, TRADE_TEXTS, w, p, d, v)
  {
    FrozenNamesDiffer();
    DomainsSeparate(h, WRITE_AUTH_TEXTS, TRADE_TEXTS, w, p, d, v);
  }
}
