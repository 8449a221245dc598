/**
 * Exactly which requests prepare a trade and what is frozen for them, which rows reload, and which
 * first cosignatures of a prepared trade are accepted.
 */
module Preparing {
  import opened Text
  import opened Words
  import opened WriteDigest
  import opened TradeDigest
  import opened Cosign
  import ChallengeStore

  // ---------------------------------------------------------------- decimal fields

  predicate AllZero(s: string) {
    forall i :: 0 <= i < |s| ==> s[i] == '0'
  }

  lemma {:induction false} LeadingZeros(z: string, s: string)
    requires AllZero(z) && AllDigits(s)
    ensures AllDigits(z + s) && DecimalValue(z + s) == DecimalValue(s)
    decreases |z| + |s|
  {
    if s != "" {
      assert (z + s)[..|z + s| - 1] == z + s[..|s| - 1];
      LeadingZeros(z, s[..|s| - 1]);
    } else if z != "" {
      assert z + s == z && (z[..|z| - 1] + s) == z[..|z| - 1];
      LeadingZeros(z[..|z| - 1], s);
    } else {
      assert z + s == s;
    }
  }

  /** Digits are leading zeros and the shortest print of their value. */
  lemma {:induction false} StripZeros(s: string) returns (z: string)
    requires s != "" && AllDigits(s)
    ensures AllZero(z) && s == z + Decimal(DecimalValue(s))
    decreases |s|
  {
    if |s| > 1 && s[0] == '0' {
      var rest := s[1..];
      assert ['0'] + rest == s;
      LeadingZeros(['0'], rest);
      var y := StripZeros(rest);
      z := ['0'] + y;
      Regroup(['0'], y, Decimal(DecimalValue(rest)));
    } else {
      z := "";
      DecimalOfValue(s);
      assert z + s == s;
    }
  }

  /** A decimal text: an optional plus sign, leading zeros, the number. */
  predicate Spells(s: string, plus: string, zeros: string, n: nat) {
    (plus == "" || plus == "+") && AllZero(zeros) && s == plus + zeros + Decimal(n)
  }

  /** Decimal fields are read back from exactly their spellings below 2^128. */
  lemma SpellingIsRead(s: string, plus: string, zeros: string, n: nat)
    requires Spells(s, plus, zeros, n)
    ensures ParseU128(s) == if n < U128_BOUND then Some(n) else None
  {
    DecimalShape(n);
    LeadingZeros(zeros, Decimal(n));
    Regroup(plus, zeros, Decimal(n));
    DigitsRead(zeros + Decimal(n));
    assert "" + (zeros + Decimal(n)) == zeros + Decimal(n);
  }

  lemma DigitsRead(digits: string)
    requires digits != "" && AllDigits(digits)
    ensures ParseU128(digits) == ParseU128("+" + digits)
    ensures ParseU128(digits) == if DecimalValue(digits) < U128_BOUND then Some(DecimalValue(digits)) else None
  {
    assert ("+" + digits)[1..] == digits;
  }

  lemma ReadIsSpelled(s: string) returns (plus: string, zeros: string)
    requires ParseU128(s).Some?
    ensures Spells(s, plus, zeros, ParseU128(s).value)
  {
    var n := ParseU128(s).value;
    plus := if s[0] == '+' then "+" else "";
    var digits := s[|plus|..];
    assert ParseU128(s) == Some(DecimalValue(digits));
    zeros := StripZeros(digits);
    assert s == plus + digits;
    Regroup(plus, zeros, Decimal(n));
  }

  // ---------------------------------------------------------------- prepare

  /** Ready for signing: the active version has an engine at a well-formed address, and the row's columns fit. */
  predicate Sealable(c: Config, p: Payload) {
    && (c.active == V1 ==> c.engineV1.Some? && AccountBytes(c.engineV1.value).Some?)
    && (c.active == V2 ==> c.engineV2.Some? && AccountBytes(c.engineV2.value).Some?)
    && p.marketId < 65536 && p.deadline * 1000 < I64_BOUND
  }

  /** The row of a frozen trade. */
  predicate RowFor(i: Intent, c: Config, p: Payload, uuid: string, nowMs: I64) {
    && (i.uuid, i.marketId, i.buyer, i.seller) == (uuid, p.marketId, p.buyer, p.seller)
    && (i.price, i.size) == (p.price, p.size)
    && (i.maxPrice, i.minPrice, i.version, i.createdAtMs) == (p.maxPrice, p.minPrice, c.active, nowMs)
    && i.buyerIsMaker == Some(p.buyerIsMaker) && i.deadlineMs == Some(p.deadline * 1000)
    && i.buyerNonce == Some(p.buyerNonce % U64_BOUND) && i.sellerNonce == Some(p.sellerNonce % U64_BOUND)
  }

  lemma PartiesExactly(c: Config, req: PrepareRequest, buyer: string, seller: string)
    ensures Parties(c, req) == Ok((buyer, seller)) <==>
      && buyer == Lower(Trim(req.buyer)) && seller == Lower(Trim(req.seller)) && buyer != seller
      && AccountBytes(buyer).Some? && AccountBytes(seller).Some? && c.allows(buyer) && c.allows(seller)
      && c.closedTest && !c.publicTrading
  {
  }

  lemma TermsExactly(c: Config, chain: Chain, req: PrepareRequest, buyer: string, seller: string, t: Terms)
    ensures ReadTerms(c, chain, req, buyer, seller) == Ok(t) <==>
      && ParseU128(req.marketId) == Some(t.marketId) && ParseU128(req.size) == Some(t.size) && 0 < t.size
      && chain.markPrice(t.marketId) == Some(t.price) && 0 < t.price
      && ParseBound(req.maxPrice) == Some(t.maxPrice) && ParseBound(req.minPrice) == Some(t.minPrice)
      && (c.active == V1 ==> t.maxPrice == 0 && t.minPrice == 0)
      && chain.nonce(buyer) == Some(t.buyerNonce) && chain.nonce(seller) == Some(t.sellerNonce)
  {
  }

  lemma FreezesExactly(h: Hash, c: Config, chain: Chain, req: PrepareRequest, uuid: string, nowMs: I64, p: Payload)
    ensures FreezeTrade(h, c, chain, req, uuid, nowMs) == Ok(p) <==>
            && Committed(h, c, chain, req, uuid, nowMs, p)
            && AccountBytes(p.buyer).Some? && AccountBytes(p.seller).Some?
  {
    PartiesExactly(c, req, p.buyer, p.seller);
    TermsExactly(c, chain, req, p.buyer, p.seller,
                 Terms(p.marketId, p.size, p.price, p.maxPrice, p.minPrice, p.buyerNonce, p.sellerNonce));
  }

  lemma SealsExactly(h: Hash, t: TradeTexts, c: Config, p: Payload, uuid: string, nowMs: I64)
    requires ValidPayload(p)
    ensures SealTrade(h, t, c, p, uuid, nowMs).Ok? <==> Sealable(c, p)
    ensures SealTrade(h, t, c, p, uuid, nowMs).Ok? ==>
            RowFor(SealTrade(h, t, c, p, uuid, nowMs).value.intent, c, p, uuid, nowMs)
  {
  }

  /** The deadline is the preparation second plus the TTL in force; a second before 1970 has none that fits. */
  lemma DeadlineExact(c: Config, nowMs: I64)
    ensures Deadline(c, nowMs) * 1000 < I64_BOUND <==>
            -1000 < nowMs && (nowMs / 1000 + Ttl(c.ttlSec)) * 1000 < I64_BOUND
    ensures 0 <= nowMs ==> Deadline(c, nowMs) == nowMs / 1000 + Ttl(c.ttlSec)
    ensures -1000 < nowMs < 0 ==> Deadline(c, nowMs) == Ttl(c.ttlSec)
  {
    TtlMeaning(c.ttlSec);
  }

  /**
   * A request prepares the trade p exactly if p is what the request, the chain and the configuration say, within
   * its price bounds, and can be sealed. Then the row holds it, and the digest is of the active version.
   */
  lemma PreparesExactly(h: Hash, t: TradeTexts, c: Config, chain: Chain, req: PrepareRequest, uuid: string,
                        nowMs: I64, p: Payload)
    ensures
      var prepared := Prepare(h, t, c, chain, req, uuid, nowMs);
      (prepared.Ok? && prepared.value.payload == p <==>
       Ready(h, c, chain, req, uuid, nowMs, p))
    ensures
      var prepared := Prepare(h, t, c, chain, req, uuid, nowMs);
      prepared.Ok? ==> RowFor(prepared.value.intent, c, prepared.value.payload, uuid, nowMs)
  {
    FreezesExactly(h, c, chain, req, uuid, nowMs, p);
    var frozen := FreezeTrade(h, c, chain, req, uuid, nowMs);
    if frozen.Ok? {
      SealsExactly(h, t, c, frozen.value, uuid, nowMs);
      if Prepare(h, t, c, chain, req, uuid, nowMs).Ok? {
        SealKeeps(h, t, c, frozen.value, uuid, nowMs);
      }
    }
  }

  /** The price bounds a request may carry: none with version 1, else each absent, zero or on its side of the price. */
  predicate BoundsOk(v: Version, price: nat, max: Option<U128>, min: Option<U128>) {
    && max.Some? && min.Some?
    && (v == V1 ==> max.value == 0 && min.value == 0)
    && (max.value == 0 || price <= max.value) && (min.value == 0 || min.value <= price)
  }

  /** A bound as the request gives it: nothing is 0, and spaces around it do not count. */
  function Given(bound: Option<string>): (r: Option<U128>) {
    if bound.None? then Some(0) else ParseU128(Trim(bound.value))
  }

  /** In terms of the request alone. */
  predicate Preparable(h: Hash, c: Config, chain: Chain, req: PrepareRequest, uuid: string, nowMs: I64) {
    var buyer, seller := Lower(Trim(req.buyer)), Lower(Trim(req.seller));
    var market, size := ParseU128(req.marketId), ParseU128(req.size);
    var engine := if c.active == V1 then c.engineV1 else c.engineV2;
    && c.closedTest && !c.publicTrading
    && ParseHex0x(buyer, 20).Some? && ParseHex0x(seller, 20).Some? && buyer != seller
    && c.allows(buyer) && c.allows(seller) && chain.nonce(buyer).Some? && chain.nonce(seller).Some?
    && market.Some? && market.value < 65536 && size.Some? && 0 < size.value
    && chain.markPrice(market.value).Some? && 0 < chain.markPrice(market.value).value
    && BoundsOk(c.active, chain.markPrice(market.value).value, Given(req.maxPrice), Given(req.minPrice))
    && h(Utf8(uuid)) != Zeros(32) && engine.Some? && ParseHex0x(engine.value, 20).Some?
    && -1000 < nowMs && (nowMs / 1000 + Ttl(c.ttlSec)) * 1000 < I64_BOUND
  }

  /** The payload such a request freezes. */
  function Frozen(h: Hash, c: Config, chain: Chain, req: PrepareRequest, uuid: string, nowMs: I64): (p: Payload)
    requires Preparable(h, c, chain, req, uuid, nowMs)
  {
    var buyer, seller := Lower(Trim(req.buyer)), Lower(Trim(req.seller));
    var market := ParseU128(req.marketId).value;
    Payload(h(Utf8(uuid)), buyer, seller, market, ParseU128(req.size).value, chain.markPrice(market).value,
            Given(req.maxPrice).value, Given(req.minPrice).value, req.buyerIsMaker,
            chain.nonce(buyer).value, chain.nonce(seller).value, Deadline(c, nowMs))
  }

  /** The payload is what the request, the chain and the configuration say, and can be sealed. */
  predicate Ready(h: Hash, c: Config, chain: Chain, req: PrepareRequest, uuid: string, nowMs: I64, p: Payload) {
    && Committed(h, c, chain, req, uuid, nowMs, p) && Sealable(c, p)
    && AccountBytes(p.buyer).Some? && AccountBytes(p.seller).Some?
  }

  lemma FrozenIsReady(h: Hash, c: Config, chain: Chain, req: PrepareRequest, uuid: string, nowMs: I64)
    requires Preparable(h, c, chain, req, uuid, nowMs)
    ensures Ready(h, c, chain, req, uuid, nowMs, Frozen(h, c, chain, req, uuid, nowMs))
  {
    DeadlineExact(c, nowMs);
  }

  lemma ReadyIsFrozen(h: Hash, c: Config, chain: Chain, req: PrepareRequest, uuid: string, nowMs: I64, p: Payload)
    requires Ready(h, c, chain, req, uuid, nowMs, p)
    ensures Preparable(h, c, chain, req, uuid, nowMs) && p == Frozen(h, c, chain, req, uuid, nowMs)
  {
    DeadlineExact(c, nowMs);
  }

  /** Prepare succeeds exactly on those requests, and freezes exactly that payload. */
  lemma PrepareOkIff(h: Hash, t: TradeTexts, c: Config, chain: Chain, req: PrepareRequest, uuid: string, nowMs: I64)
    ensures Prepare(h, t, c, chain, req, uuid, nowMs).Ok? <==> Preparable(h, c, chain, req, uuid, nowMs)
    ensures Preparable(h, c, chain, req, uuid, nowMs) ==>
            Prepare(h, t, c, chain, req, uuid, nowMs).value.payload == Frozen(h, c, chain, req, uuid, nowMs)
  {
    if Preparable(h, c, chain, req, uuid, nowMs) {
      FrozenIsReady(h, c, chain, req, uuid, nowMs);
      PreparesExactly(h, t, c, chain, req, uuid, nowMs, Frozen(h, c, chain, req, uuid, nowMs));
    }
    var prepared := Prepare(h, t, c, chain, req, uuid, nowMs);
    if prepared.Ok? {
      PreparesExactly(h, t, c, chain, req, uuid, nowMs, prepared.value.payload);
      ReadyIsFrozen(h, c, chain, req, uuid, nowMs, prepared.value.payload);
    }
  }

  /** A valid payload: identified, between well-formed addresses, for a positive size and price within its bounds. */
  lemma ValidExactly(p: Payload)
    ensures ValidPayload(p) <==>
      && p.intentId != Zeros(32) && ParseHex0x(p.buyer, 20).Some? && ParseHex0x(p.seller, 20).Some?
      && 0 < p.size && 0 < p.price
      && (p.maxPrice == 0 || p.price <= p.maxPrice) && (p.minPrice == 0 || p.minPrice <= p.price)
  {
  }

  // ---------------------------------------------------------------- reload

  /** The row is complete, in whole seconds, within its bounds, and carries none under version 1. */
  predicate Reloadable(h: Hash, i: Intent) {
    && h(Utf8(i.uuid)) != Zeros(32) && ParseHex0x(i.buyer, 20).Some? && ParseHex0x(i.seller, 20).Some?
    && i.buyerIsMaker.Some? && i.buyerNonce.Some? && i.sellerNonce.Some?
    && i.deadlineMs.Some? && 0 <= i.deadlineMs.value && i.deadlineMs.value % 1000 == 0
    && 0 < i.size && 0 < i.price && BoundsOk(i.version, i.price, Some(i.maxPrice), Some(i.minPrice))
  }

  /** Exactly such rows reload, to the trade their columns say. */
  lemma ReloadsExactly(h: Hash, i: Intent)
    ensures Reload(h, i).Ok? <==> Reloadable(h, i)
    ensures Reloadable(h, i) ==> Reload(h, i) == Ok(Payload(
      h(Utf8(i.uuid)), i.buyer, i.seller, i.marketId, i.size, i.price, i.maxPrice, i.minPrice, i.buyerIsMaker.value,
      i.buyerNonce.value, i.sellerNonce.value, i.deadlineMs.value / 1000))
  {
  }

  // ---------------------------------------------------------------- the first cosignature

  /** The signature decodes and recovers to the account on the digest. */
  predicate Signs(recover: ChallengeStore.Recover, digest: Word, signature: string, account: string) {
    && ParseHex0x(signature, 65).Some? && ParseHex0x(account, 20).Some?
    && recover(digest, ParseHex0x(signature, 65).value) == AccountBytes(account)
  }

  /**
   * From preparation to cosigning: with nonces that fit 64 bits, the first cosignature of a prepared trade is
   * accepted exactly if the TTL in force has not passed and both parties of the request signed the digest that
   * preparing returned, whatever version is active by then.
   */
  lemma PreparedCosignedIff(h: Hash, t: TradeTexts, recover: ChallengeStore.Recover, c: Config, chain: Chain,
                            req: PrepareRequest, uuid: string, nowMs: I64, a: Attempt)
    ensures
      var prepared := Prepare(h, t, c, chain, req, uuid, nowMs);
      prepared.Ok? && 0 <= nowMs && NoncesFit(prepared.value.payload) ==>
        (CosignPrepared(h, t, recover, c, prepared.value, a, NOTHING_STORED).Ok? <==>
         && a.nowSec <= nowMs / 1000 + Ttl(c.ttlSec)
         && Signs(recover, prepared.value.digest, a.req.buyer, Lower(Trim(req.buyer)))
         && Signs(recover, prepared.value.digest, a.req.seller, Lower(Trim(req.seller))))
  {
    var prepared := Prepare(h, t, c, chain, req, uuid, nowMs);
    if prepared.Ok? && 0 <= nowMs && NoncesFit(prepared.value.payload) {
      var x := Setting(h, t, recover, c.(active := a.active), prepared.value.intent);
      PrepareThenReload(h, t, c, chain, req, uuid, nowMs);
      PreparedDigestSurvivesFlip(h, t, c, chain, req, uuid, nowMs, a.active);
      PreparedExpiresExactly(h, t, recover, c, chain, req, uuid, nowMs, a, NOTHING_STORED);
      PrepareOkIff(h, t, c, chain, req, uuid, nowMs);
      FirstAcceptedExactly(x, prepared.value.payload, prepared.value.digest, a);
    }
  }

  /** A request carries a sound bundle exactly if each of its signatures signs for its party. */
  lemma SoundIsSigned(x: Setting, p: Payload, digest: Word, req: CosignRequest)
    requires x.Frozen() == Ok(p) && x.Digest() == Ok(digest)
    ensures DecodeBundle(req).Some? && Sound(x, DecodeBundle(req).value) <==>
            Signs(x.recover, digest, req.buyer, p.buyer) && Signs(x.recover, digest, req.seller, p.seller)
  {
    ReloadsExactly(x.hash, x.intent);
    if ParseHex0x(req.buyer, 65).Some? { PrintParsed(req.buyer, 65); }
    if ParseHex0x(req.seller, 65).Some? { PrintParsed(req.seller, 65); }
  }

  /** Over half a bundle, which the route itself never stores, every unexpired request conflicts. */
  lemma HalfStoredConflicts(x: Setting, req: CosignRequest, prior: Stored, nowSec: U128)
    requires x.Frozen().Ok? && x.Digest().Ok? && (prior.buyer.Some? <==> prior.seller.None?)
    ensures Route(x, req, prior, nowSec) ==
      Err(if 0 < x.Frozen().value.deadline < nowSec then DeadlineExpired else CosignConflict)
  {
  }

  lemma FirstAcceptedExactly(x: Setting, p: Payload, digest: Word, a: Attempt)
    requires x.Frozen() == Ok(p) && x.Digest() == Ok(digest)
    ensures Route(x, a.req, NOTHING_STORED, a.nowSec).Ok? <==>
      && (p.deadline == 0 || a.nowSec <= p.deadline)
      && Signs(x.recover, digest, a.req.buyer, p.buyer) && Signs(x.recover, digest, a.req.seller, p.seller)
    ensures Route(x, a.req, NOTHING_STORED, a.nowSec) == Err(DeadlineExpired) <==> 0 < p.deadline < a.nowSec
  {
    FirstAcceptedIff(x, a.req, a.nowSec);
    SoundIsSigned(x, p, digest, a.req);
    var engine := EngineFor(x.config, x.intent.version).value;
    ExpiredExactly(x.hash, x.texts, x.recover, x.intent, DomainFor(x.intent.version, x.config.chainId, engine), a.req,
                   Some(NOTHING_STORED), a.nowSec);
  }
}
