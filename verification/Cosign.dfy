/**
 * Preparing a perp trade, reloading it from its row, and cosigning it. Chain reads, the clock and
 * identifiers are parameters.
 */
module Cosign {
  import opened Text
  import opened Words
  import opened WriteDigest
  import opened TradeDigest
  import ChallengeStore

  type U16 = n: int | 0 <= n < 65536

  const DEFAULT_TTL_SEC: int := 3_600
  const MIN_TTL_SEC: int := 300
  const MAX_TTL_SEC: int := 86_400

  datatype Config = Config(
    closedTest: bool,
    publicTrading: bool,
    allows: string -> bool,
    active: Version,
    ttlSec: U128,
    chainId: U64,
    engineV1: Option<string>,
    engineV2: Option<string>
  )

  function EngineFor(c: Config, v: Version): (r: Option<string>) {
    match v case V1 => c.engineV1 case V2 => c.engineV2
  }

  datatype PrepareRequest = PrepareRequest(
    buyer: string,
    seller: string,
    marketId: string,
    size: string,
    maxPrice: Option<string>,
    minPrice: Option<string>,
    buyerIsMaker: bool
  )

  /** The chain: mark prices by market and nonces by account, either of which may fail to read. */
  datatype Chain = Chain(markPrice: U128 -> Option<U128>, nonce: string -> Option<U128>)

  /** The persisted row. */
  datatype Intent = Intent(
    uuid: string,
    marketId: U16,
    buyer: string,
    seller: string,
    price: U128,
    size: U128,
    buyerIsMaker: Option<bool>,
    buyerNonce: Option<U64>,
    sellerNonce: Option<U64>,
    deadlineMs: Option<I64>,
    createdAtMs: I64,
    version: Version,
    maxPrice: U128,
    minPrice: U128
  )

  datatype Prepared = Prepared(payload: Payload, digest: Word, intent: Intent)

  // ---------------------------------------------------------------- integers as the source has them

  /** `str::parse::<u128>`: an optional plus sign, then digits. */
  function ParseU128(s: string): (r: Option<U128>) {
    var digits := if s != "" && s[0] == '+' then s[1..] else s;
    if digits != "" && AllDigits(digits) && DecimalValue(digits) < U128_BOUND then Some(DecimalValue(digits)) else None
  }

  function ParseBound(s: Option<string>): (r: Option<U128>) {
    match s case None => Some(0) case Some(text) => ParseU128(Trim(text))
  }

  /** Division of a millisecond clock by 1000, toward zero. */
  function Seconds(ms: int): (s: int) {
    if ms >= 0 then ms / 1000 else -(-ms / 1000)
  }

  /** `as u128` on an `i64`: negative numbers wrap. */
  function AsU128(n: I64): (u: U128) {
    if n < 0 then n + U128_BOUND else n
  }

  function SaturatingU128(n: int): (u: U128)
    requires 0 <= n
  {
    if n < U128_BOUND then n else U128_BOUND - 1
  }

  function Ttl(configured: U128): (t: U128) {
    if configured == 0 then DEFAULT_TTL_SEC
    else
      var raised := if configured < MIN_TTL_SEC then MIN_TTL_SEC else configured;
      if raised > MAX_TTL_SEC then MAX_TTL_SEC else raised
  }

  function Deadline(c: Config, nowMs: I64): (d: U128) {
    SaturatingU128(AsU128(Seconds(nowMs)) + Ttl(c.ttlSec))
  }

  function IntentId(h: Hash, uuid: string): (r: Option<Word>) {
    if h(Utf8(uuid)) == Zeros(32) then None else Some(h(Utf8(uuid)))
  }

  // ---------------------------------------------------------------- prepare

  /** The economic fields of a request, parsed and read. */
  datatype Terms = Terms(
    marketId: U128, size: U128, price: U128, maxPrice: U128, minPrice: U128, buyerNonce: U128, sellerNonce: U128)

  /** The parties: trimmed, lowercased, well formed, allowed and distinct. */
  function Parties(c: Config, req: PrepareRequest): (r: Result<(string, string), TradeError>) {
    var buyer, seller := Lower(Trim(req.buyer)), Lower(Trim(req.seller));
    if !c.closedTest || c.publicTrading then Err(NotLive)
    else if AccountBytes(buyer).None? || AccountBytes(seller).None? then Err(Unauthorized)
    else if !c.allows(buyer) || !c.allows(seller) then Err(NotLive)
    else if buyer == seller then Err(SameParty)
    else Ok((buyer, seller))
  }

  function ReadTerms(c: Config, chain: Chain, req: PrepareRequest, buyer: string, seller: string)
    : (r: Result<Terms, TradeError>)
  {
    var marketId, size := ParseU128(req.marketId), ParseU128(req.size);
    if marketId.None? || size.None? then Err(BadDecimal)
    else if size.value == 0 then Err(ZeroSize)
    else
      var price := chain.markPrice(marketId.value);
      if price.None? || price.value == 0 then Err(MarkUnavailable)
      else
        var max, min := ParseBound(req.maxPrice), ParseBound(req.minPrice);
        if max.None? || min.None? then Err(BadDecimal)
        else if c.active == V1 && (max.value != 0 || min.value != 0) then Err(V1Bounds)
        else
          var buyerNonce, sellerNonce := chain.nonce(buyer), chain.nonce(seller);
          if buyerNonce.None? || sellerNonce.None? then Err(NonceUnavailable)
          else Ok(Terms(marketId.value, size.value, price.value, max.value, min.value, buyerNonce.value,
                        sellerNonce.value))
  }

  function Freeze(intentId: Word, buyer: string, seller: string, t: Terms, buyerIsMaker: bool,
                  deadline: U128): (p: Payload) {
    Payload(intentId, buyer, seller, t.marketId, t.size, t.price, t.maxPrice, t.minPrice, buyerIsMaker,
            t.buyerNonce, t.sellerNonce, deadline)
  }

  /** The row for a frozen payload: the nonces keep their low 64 bits, the deadline becomes milliseconds. */
  function RowOf(c: Config, uuid: string, p: Payload, nowMs: I64): (r: Result<Intent, TradeError>) {
    var ms := SaturatingU128(p.deadline * 1000);
    if ms >= I64_BOUND then Err(DeadlineOverflow)
    else if p.marketId >= 65536 then Err(UnknownMarket)
    else Ok(Intent(uuid, p.marketId, p.buyer, p.seller, p.price, p.size, Some(p.buyerIsMaker),
                   Some(p.buyerNonce % U64_BOUND), Some(p.sellerNonce % U64_BOUND), Some(ms), nowMs,
                   c.active, p.maxPrice, p.minPrice))
  }

  /** The first half of `prepare_trade_core`: everything up to the validated payload. */
  function FreezeTrade(h: Hash, c: Config, chain: Chain, req: PrepareRequest, uuid: string,
                       nowMs: I64): (r: Result<Payload, TradeError>) {
    match Parties(c, req)
    case Err(e) => Err(e)
    case Ok((buyer, seller)) =>
      match ReadTerms(c, chain, req, buyer, seller)
      case Err(e) => Err(e)
      case Ok(terms) =>
        match IntentId(h, uuid)
        case None => Err(BadIntentId)
        case Some(intentId) =>
          var payload := Freeze(intentId, buyer, seller, terms, req.buyerIsMaker, Deadline(c, nowMs));
          match Complaint(payload)
          case Some(e) => Err(e)
          case None => Ok(payload)
  }

  /** The second half: the digest for the active version, and the row. */
  function SealTrade(h: Hash, t: TradeTexts, c: Config, payload: Payload, uuid: string,
                     nowMs: I64): (r: Result<Prepared, TradeError>) {
    match EngineFor(c, c.active)
    case None => Err(NoEngine)
    case Some(engine) =>
      match TradeDigestFor(h, t, payload, DomainFor(c.active, c.chainId, engine), c.active)
      case Err(e) => Err(e)
      case Ok(digest) =>
        match RowOf(c, uuid, payload, nowMs)
        case Err(e) => Err(e)
        case Ok(intent) => Ok(Prepared.Prepared(payload, digest, intent))
  }

  /** `prepare_trade_core`. */
  function Prepare(h: Hash, t: TradeTexts, c: Config, chain: Chain, req: PrepareRequest, uuid: string, nowMs: I64)
    : (r: Result<Prepared, TradeError>)
  {
    match FreezeTrade(h, c, chain, req, uuid, nowMs)
    case Err(e) => Err(e)
    case Ok(payload) => SealTrade(h, t, c, payload, uuid, nowMs)
  }

  // ---------------------------------------------------------------- reload

  /** `ExecutionIntent::perp_trade_payload`. */
  function Reload(h: Hash, i: Intent): (r: Result<Payload, TradeError>) {
    if i.version == V1 && (i.maxPrice != 0 || i.minPrice != 0) then Err(V1Bounds)
    else if i.buyerIsMaker.None? || i.buyerNonce.None? || i.sellerNonce.None? || i.deadlineMs.None? then
      Err(MissingMetadata)
    else if i.deadlineMs.value % 1000 != 0 || i.deadlineMs.value < 0 then Err(MissingMetadata)
    else
      match IntentId(h, i.uuid)
      case None => Err(BadIntentId)
      case Some(intentId) =>
        var p := Payload(intentId, i.buyer, i.seller, i.marketId, i.size, i.price, i.maxPrice, i.minPrice,
                         i.buyerIsMaker.value, i.buyerNonce.value, i.sellerNonce.value, i.deadlineMs.value / 1000);
        if Complaint(p).Some? then Err(Complaint(p).value) else Ok(p)
  }

  /** A row reloads to its payload with the nonces cut to 64 bits; the deadline comes back exactly. */
  lemma RowReloads(h: Hash, c: Config, uuid: string, p: Payload, nowMs: I64)
    requires ValidPayload(p) && IntentId(h, uuid) == Some(p.intentId)
    requires c.active == V1 ==> p.maxPrice == 0 && p.minPrice == 0
    requires RowOf(c, uuid, p, nowMs).Ok?
    ensures Reload(h, RowOf(c, uuid, p, nowMs).value) ==
            Ok(p.(buyerNonce := p.buyerNonce % U64_BOUND, sellerNonce := p.sellerNonce % U64_BOUND))
  {
  }

  predicate NoncesFit(p: Payload) {
    p.buyerNonce < U64_BOUND && p.sellerNonce < U64_BOUND
  }

  /** A row reloads to its very payload exactly when both nonces fit 64 bits. */
  lemma RowRoundTrip(h: Hash, c: Config, uuid: string, p: Payload, nowMs: I64)
    requires ValidPayload(p) && IntentId(h, uuid) == Some(p.intentId)
    requires c.active == V1 ==> p.maxPrice == 0 && p.minPrice == 0
    requires RowOf(c, uuid, p, nowMs).Ok?
    ensures Reload(h, RowOf(c, uuid, p, nowMs).value) == Ok(p) <==> NoncesFit(p)
  {
  }

  /** What a frozen payload commits to. */
  predicate Committed(h: Hash, c: Config, chain: Chain, req: PrepareRequest, uuid: string, nowMs: I64, p: Payload) {
    && ValidPayload(p) && IntentId(h, uuid) == Some(p.intentId)
    && 0 < p.size && 0 < p.price
    && (p.maxPrice == 0 || p.price <= p.maxPrice) && (p.minPrice == 0 || p.minPrice <= p.price)
    && (c.active == V1 ==> p.maxPrice == 0 && p.minPrice == 0)
    && c.closedTest && !c.publicTrading
    && p.buyer == Lower(Trim(req.buyer)) && p.seller == Lower(Trim(req.seller))
    && c.allows(p.buyer) && c.allows(p.seller) && p.buyer != p.seller
    && chain.nonce(p.buyer) == Some(p.buyerNonce) && chain.nonce(p.seller) == Some(p.sellerNonce)
    && chain.markPrice(p.marketId) == Some(p.price) && ParseU128(req.marketId) == Some(p.marketId)
    && ParseU128(req.size) == Some(p.size) && ParseBound(req.maxPrice) == Some(p.maxPrice)
    && ParseBound(req.minPrice) == Some(p.minPrice)
    && p.deadline == Deadline(c, nowMs) && p.buyerIsMaker == req.buyerIsMaker
  }

  lemma FreezeCommits(h: Hash, c: Config, chain: Chain, req: PrepareRequest, uuid: string, nowMs: I64)
    requires FreezeTrade(h, c, chain, req, uuid, nowMs).Ok?
    ensures Committed(h, c, chain, req, uuid, nowMs, FreezeTrade(h, c, chain, req, uuid, nowMs).value)
  {
  }

  lemma SealKeeps(h: Hash, t: TradeTexts, c: Config, p: Payload, uuid: string, nowMs: I64)
    requires SealTrade(h, t, c, p, uuid, nowMs).Ok?
    ensures
      var o := SealTrade(h, t, c, p, uuid, nowMs).value;
      o.payload == p && RowOf(c, uuid, p, nowMs) == Ok(o.intent) && o.intent.version == c.active
  {
  }

  /**
   * Prepare then reload: the row pins the active version, and it gives the frozen payload back
   * exactly when both chain nonces fit 64 bits.
   */
  lemma PrepareThenReload(h: Hash, t: TradeTexts, c: Config, chain: Chain, req: PrepareRequest, uuid: string,
                          nowMs: I64)
    ensures
      var prepared := Prepare(h, t, c, chain, req, uuid, nowMs);
      prepared.Ok? ==>
        var o := prepared.value;
        && Committed(h, c, chain, req, uuid, nowMs, o.payload) && o.intent.version == c.active
        && (Reload(h, o.intent) == Ok(o.payload) <==> NoncesFit(o.payload))
  {
    if Prepare(h, t, c, chain, req, uuid, nowMs).Ok? {
      var p := FreezeTrade(h, c, chain, req, uuid, nowMs).value;
      FreezeCommits(h, c, chain, req, uuid, nowMs);
      SealKeeps(h, t, c, p, uuid, nowMs);
      RowRoundTrip(h, c, uuid, p, nowMs);
    }
  }

  /** The digest the cosign route reconstructs from a row, whatever version is active by then. */
  function RowDigest(h: Hash, t: TradeTexts, c: Config, i: Intent): (r: Result<Word, TradeError>) {
    match Reload(h, i)
    case Err(e) => Err(e)
    case Ok(p) =>
      match EngineFor(c, i.version)
      case None => Err(NoEngine)
      case Some(engine) => TradeDigestFor(h, t, p, DomainFor(i.version, c.chainId, engine), i.version)
  }

  lemma SealedDigest(h: Hash, t: TradeTexts, c: Config, p: Payload, uuid: string, nowMs: I64, later: Version)
    requires SealTrade(h, t, c, p, uuid, nowMs).Ok?
    requires Reload(h, SealTrade(h, t, c, p, uuid, nowMs).value.intent) == Ok(p)
    ensures
      var o := SealTrade(h, t, c, p, uuid, nowMs).value;
      RowDigest(h, t, c.(active := later), o.intent) == Ok(o.digest)
  {
  }

  /** With nonces that fit, the signed digest survives any later flip of the active version. */
  lemma PreparedDigestSurvivesFlip(h: Hash, t: TradeTexts, c: Config, chain: Chain, req: PrepareRequest, uuid: string,
                                   nowMs: I64, later: Version)
    ensures
      var prepared := Prepare(h, t, c, chain, req, uuid, nowMs);
      prepared.Ok? && NoncesFit(prepared.value.payload) ==>
        RowDigest(h, t, c.(active := later), prepared.value.intent) == Ok(prepared.value.digest)
  {
    var prepared := Prepare(h, t, c, chain, req, uuid, nowMs);
    if prepared.Ok? && NoncesFit(prepared.value.payload) {
      var p := FreezeTrade(h, c, chain, req, uuid, nowMs).value;
      FreezeCommits(h, c, chain, req, uuid, nowMs);
      SealKeeps(h, t, c, p, uuid, nowMs);
      RowRoundTrip(h, c, uuid, p, nowMs);
      SealedDigest(h, t, c, p, uuid, nowMs, later);
    }
  }

  // ---------------------------------------------------------------- cosign

  datatype Stored = Stored(buyer: Option<string>, seller: Option<string>)

  const NOTHING_STORED := Stored(None, None)

  datatype CosignRequest = CosignRequest(buyer: string, seller: string)

  datatype Bundle = Bundle(buyer: seq<Byte>, seller: seq<Byte>)

  function DecodeBundle(req: CosignRequest): (r: Option<Bundle>) {
    match (ParseHex0x(req.buyer, 65), ParseHex0x(req.seller, 65))
    case (Some(b), Some(s)) => Some(Bundle(b, s))
    case _ => None
  }

  predicate SameSignature(stored: Option<string>, given: string) {
    stored.Some? && EqIgnoreCase(stored.value, given)
  }

  predicate SameSignatures(stored: Stored, req: CosignRequest) {
    SameSignature(stored.buyer, req.buyer) && SameSignature(stored.seller, req.seller)
  }

  /** `cosign_verify_core_for_version`. */
  function VerifyBoth(h: Hash, t: TradeTexts, recover: ChallengeStore.Recover, p: Payload, d: Domain, v: Version,
                      req: CosignRequest)
    : (r: Result<Bundle, TradeError>)
  {
    match TradeDigestFor(h, t, p, d, v)
    case Err(e) => Err(e)
    case Ok(digest) =>
      var buyer := ChallengeStore.RecoverSigner(recover, digest, req.buyer);
      if buyer.None? then Err(SignatureInvalid)
      else if !EqIgnoreCase(buyer.value, p.buyer) then Err(TraderMismatch)
      else
        var seller := ChallengeStore.RecoverSigner(recover, digest, req.seller);
        if seller.None? then Err(SignatureInvalid)
        else if !EqIgnoreCase(seller.value, p.seller) then Err(TraderMismatch)
        else
          match DecodeBundle(req)
          case None => Err(MalformedSignature)
          case Some(b) => Ok(b)
  }

  predicate PastDeadline(p: Payload, nowSec: U128) {
    p.deadline > 0 && nowSec > p.deadline
  }

  /** `cosign_load_and_verify`. */
  function LoadAndVerify(h: Hash, t: TradeTexts, recover: ChallengeStore.Recover, i: Intent, d: Domain,
                         req: CosignRequest, prior: Option<Stored>, nowSec: U128): (r: Result<Bundle, TradeError>)
  {
    match Reload(h, i)
    case Err(e) => Err(e)
    case Ok(p) =>
      if PastDeadline(p, nowSec) then Err(DeadlineExpired)
      else if prior.Some? && SameSignatures(prior.value, req) then
        match DecodeBundle(req)
        case None => Err(MalformedSignature)
        case Some(b) => Ok(b)
      else if prior.Some? && (prior.value.buyer.Some? || prior.value.seller.Some?) then Err(CosignConflict)
      else VerifyBoth(h, t, recover, p, d, i.version, req)
  }

  /** What the cosign requests on one intent share; only the active version may change between them. */
  datatype Setting = Setting(hash: Hash, texts: TradeTexts, recover: ChallengeStore.Recover, config: Config,
                             intent: Intent) {
    function At(active: Version): (x: Setting) {
      this.(config := config.(active := active))
    }

    function Digest(): (r: Result<Word, TradeError>) {
      RowDigest(hash, texts, config, intent)
    }

    function Frozen(): (r: Result<Payload, TradeError>) {
      Reload(hash, intent)
    }
  }

  /** The cosign route's verification: the domain comes from the row's version. */
  function Route(x: Setting, req: CosignRequest, prior: Stored, nowSec: U128): (r: Result<Bundle, TradeError>) {
    match EngineFor(x.config, x.intent.version)
    case None => Err(NoEngine)
    case Some(engine) =>
      var domain := DomainFor(x.intent.version, x.config.chainId, engine);
      LoadAndVerify(x.hash, x.texts, x.recover, x.intent, domain, req, Some(prior), nowSec)
  }

  function StoreBundle(b: Bundle): (s: Stored) {
    Stored(Some(Hex0x(b.buyer)), Some(Hex0x(b.seller)))
  }

  /** The stored strings print a bundle whose halves recover to the frozen buyer and seller on the row's digest. */
  predicate Sound(x: Setting, b: Bundle) {
    && x.Digest().Ok? && x.Frozen().Ok? && |b.buyer| == 65 && |b.seller| == 65
    && x.recover(x.Digest().value, b.buyer).Some? && x.recover(x.Digest().value, b.seller).Some?
    && x.recover(x.Digest().value, b.buyer) == AccountBytes(x.Frozen().value.buyer)
    && x.recover(x.Digest().value, b.seller) == AccountBytes(x.Frozen().value.seller)
  }

  // ---------------------------------------------------------------- the signing window

  /** Reloadable rows are refused as expired exactly past their deadline, before anything else is looked at. */
  lemma ExpiredExactly(h: Hash, t: TradeTexts, recover: ChallengeStore.Recover, i: Intent, d: Domain,
                       req: CosignRequest, prior: Option<Stored>, nowSec: U128)
    requires Reload(h, i).Ok?
    ensures LoadAndVerify(h, t, recover, i, d, req, prior, nowSec) == Err(DeadlineExpired) <==>
      PastDeadline(Reload(h, i).value, nowSec)
  {
  }

  /** The TTL in force: the configured one if it lies in the window, the default for 0, else the nearer bound. */
  lemma TtlMeaning(configured: U128)
    ensures MIN_TTL_SEC <= Ttl(configured) <= MAX_TTL_SEC
    ensures configured == 0 ==> Ttl(configured) == DEFAULT_TTL_SEC
    ensures MIN_TTL_SEC <= configured <= MAX_TTL_SEC ==> Ttl(configured) == configured
  {
  }

  /** A cosign request on a prepared trade, whatever version is active by then. */
  function CosignPrepared(h: Hash, t: TradeTexts, recover: ChallengeStore.Recover, c: Config, o: Prepared, a: Attempt,
                          prior: Stored): (r: Result<Bundle, TradeError>)
  {
    Route(Setting(h, t, recover, c.(active := a.active), o.intent), a.req, prior, a.nowSec)
  }

  lemma SealedExpiry(h: Hash, t: TradeTexts, recover: ChallengeStore.Recover, c: Config, p: Payload, uuid: string,
                     nowMs: I64, a: Attempt, prior: Stored)
    requires SealTrade(h, t, c, p, uuid, nowMs).Ok? && 0 <= nowMs && p.deadline == Deadline(c, nowMs)
    requires ValidPayload(p) && IntentId(h, uuid) == Some(p.intentId)
    requires c.active == V1 ==> p.maxPrice == 0 && p.minPrice == 0
    ensures
      var o := SealTrade(h, t, c, p, uuid, nowMs).value;
      (CosignPrepared(h, t, recover, c, o, a, prior) == Err(DeadlineExpired)) <==>
        a.nowSec > Seconds(nowMs) + Ttl(c.ttlSec)
  {
    var i := SealTrade(h, t, c, p, uuid, nowMs).value.intent;
    SealKeeps(h, t, c, p, uuid, nowMs);
    RowReloads(h, c, uuid, p, nowMs);
    var engine := EngineFor(c, c.active).value;
    ExpiredExactly(h, t, recover, i, DomainFor(i.version, c.chainId, engine), a.req, Some(prior), a.nowSec);
  }

  /**
   * From preparation to cosigning: for every non-negative clock and configured TTL, every later active
   * version, request and stored signatures, a prepared trade is refused as expired exactly when more
   * seconds than the TTL in force have passed. Nonces over 64 bits included.
   */
  lemma PreparedExpiresExactly(h: Hash, t: TradeTexts, recover: ChallengeStore.Recover, c: Config, chain: Chain,
                               req: PrepareRequest, uuid: string, nowMs: I64, a: Attempt, prior: Stored)
    ensures
      var prepared := Prepare(h, t, c, chain, req, uuid, nowMs);
      prepared.Ok? && 0 <= nowMs ==>
        ((CosignPrepared(h, t, recover, c, prepared.value, a, prior) == Err(DeadlineExpired)) <==>
         a.nowSec > Seconds(nowMs) + Ttl(c.ttlSec))
  {
    if Prepare(h, t, c, chain, req, uuid, nowMs).Ok? && 0 <= nowMs {
      FreezeCommits(h, c, chain, req, uuid, nowMs);
      var p := FreezeTrade(h, c, chain, req, uuid, nowMs).value;
      SealedExpiry(h, t, recover, c, p, uuid, nowMs, a, prior);
    }
  }

  /** So it is never refused as expired in its first 300 seconds, and never accepted more than 86400 seconds later. */
  lemma PreparedWindow(h: Hash, t: TradeTexts, recover: ChallengeStore.Recover, c: Config, chain: Chain,
                       req: PrepareRequest, uuid: string, nowMs: I64, a: Attempt, prior: Stored)
    ensures
      var prepared := Prepare(h, t, c, chain, req, uuid, nowMs);
      prepared.Ok? && 0 <= nowMs ==>
        var r := CosignPrepared(h, t, recover, c, prepared.value, a, prior);
        && (a.nowSec <= Seconds(nowMs) + MIN_TTL_SEC ==> r != Err(DeadlineExpired))
        && (a.nowSec > Seconds(nowMs) + MAX_TTL_SEC ==> r == Err(DeadlineExpired))
  {
    TtlMeaning(c.ttlSec);
    PreparedExpiresExactly(h, t, recover, c, chain, req, uuid, nowMs, a, prior);
  }

  /** And once one request was refused as expired, so is every request at that or a later second. */
  lemma PreparedStaysExpired(h: Hash, t: TradeTexts, recover: ChallengeStore.Recover, c: Config, chain: Chain,
                             req: PrepareRequest, uuid: string, nowMs: I64, a: Attempt, prior: Stored,
                             b: Attempt, prior2: Stored)
    requires 0 <= nowMs && a.nowSec <= b.nowSec
    ensures
      var prepared := Prepare(h, t, c, chain, req, uuid, nowMs);
      prepared.Ok? && CosignPrepared(h, t, recover, c, prepared.value, a, prior) == Err(DeadlineExpired) ==>
        CosignPrepared(h, t, recover, c, prepared.value, b, prior2) == Err(DeadlineExpired)
  {
    PreparedExpiresExactly(h, t, recover, c, chain, req, uuid, nowMs, a, prior);
    PreparedExpiresExactly(h, t, recover, c, chain, req, uuid, nowMs, b, prior2);
  }

  /**
   * In milliseconds: never expired within 300000, always from 86401000 on; with the largest TTL and a
   * whole-second start, 86400999 is still not expired.
   */
  lemma PreparedWindowInMilliseconds(h: Hash, t: TradeTexts, recover: ChallengeStore.Recover, c: Config, chain: Chain,
                                     req: PrepareRequest, uuid: string, nowMs: I64, a: Attempt, prior: Stored,
                                     laterMs: I64)
    requires 0 <= nowMs <= laterMs && a.nowSec == Seconds(laterMs)
    ensures
      var prepared := Prepare(h, t, c, chain, req, uuid, nowMs);
      prepared.Ok? ==>
        var r := CosignPrepared(h, t, recover, c, prepared.value, a, prior);
        && (laterMs <= nowMs + 300_000 ==> r != Err(DeadlineExpired))
        && (laterMs >= nowMs + 86_401_000 ==> r == Err(DeadlineExpired))
        && (c.ttlSec >= 86_400 && nowMs % 1000 == 0 && laterMs == nowMs + 86_400_999 ==> r != Err(DeadlineExpired))
  {
    TtlMeaning(c.ttlSec);
    PreparedExpiresExactly(h, t, recover, c, chain, req, uuid, nowMs, a, prior);
  }

  // ---------------------------------------------------------------- an accepted bundle is sound and stays

  /** Nothing is stored, or a sound bundle is. */
  ghost predicate StoredOk(x: Setting, s: Stored) {
    s != NOTHING_STORED ==> exists b :: Sound(x, b) && s == StoreBundle(b)
  }

  /** The signer check on one half: the signature decodes and recovers to the account. */
  lemma RecoveredIff(recover: ChallengeStore.Recover, digest: Word, signature: string, account: string)
    requires AccountBytes(account).Some?
    ensures
      var signer, decoded := ChallengeStore.RecoverSigner(recover, digest, signature), ParseHex0x(signature, 65);
      && (signer.Some? && EqIgnoreCase(signer.value, account) <==>
          decoded.Some? && recover(digest, decoded.value) == AccountBytes(account))
      && (decoded.Some? ==> |decoded.value| == 65)
  {
    var decoded := ParseHex0x(signature, 65);
    if decoded.Some? {
      PrintParsed(signature, 65);
      if recover(digest, decoded.value).Some? {
        var address := recover(digest, decoded.value).value;
        ParsePrinted(address);
        PrintParsed(account, 20);
        ParseEqualIffSameLower(Hex0x(address), account, 20);
      }
    }
  }

  lemma VerifiedIff(h: Hash, t: TradeTexts, recover: ChallengeStore.Recover, p: Payload, d: Domain, v: Version,
                    req: CosignRequest)
    requires TradeDigestFor(h, t, p, d, v).Ok?
    ensures
      var r, b := VerifyBoth(h, t, recover, p, d, v, req), DecodeBundle(req);
      var digest := TradeDigestFor(h, t, p, d, v).value;
      && (r.Ok? <==>
          && b.Some? && recover(digest, b.value.buyer) == AccountBytes(p.buyer)
          && recover(digest, b.value.seller) == AccountBytes(p.seller))
      && (r.Ok? ==> r.value == b.value && |r.value.buyer| == 65 && |r.value.seller| == 65)
  {
    var digest := TradeDigestFor(h, t, p, d, v).value;
    RecoveredIff(recover, digest, req.buyer, p.buyer);
    RecoveredIff(recover, digest, req.seller, p.seller);
  }

  lemma SameHalf(bytes: seq<Byte>, given: string)
    ensures ParseHex0x(given, |bytes|) == Some(bytes) <==>
            EqIgnoreCase(Hex0x(bytes), given) && |given| > 1 && given[1] == 'x'
    ensures EqIgnoreCase(Hex0x(bytes), given) ==> |given| > 1
  {
    if EqIgnoreCase(Hex0x(bytes), given) {
      CaseVariant(bytes, given);
    }
    if ParseHex0x(given, |bytes|) == Some(bytes) {
      PrintParsed(given, |bytes|);
      LowerIdempotent(given);
    }
  }

  /** Over a stored bundle exactly the unexpired requests that decode to that very bundle are accepted. */
  lemma ReplayAcceptedIff(x: Setting, b: Bundle, req: CosignRequest, nowSec: U128)
    requires Sound(x, b)
    ensures Route(x, req, StoreBundle(b), nowSec).Ok? <==>
            !PastDeadline(x.Frozen().value, nowSec) && DecodeBundle(req) == Some(b)
    ensures Route(x, req, StoreBundle(b), nowSec).Ok? ==> Route(x, req, StoreBundle(b), nowSec).value == b
  {
    SameHalf(b.buyer, req.buyer);
    SameHalf(b.seller, req.seller);
  }

  /** And of the others, those equal to it up to case, an `0X` included, are malformed; the rest conflict. */
  lemma ReplayRefusedAs(x: Setting, b: Bundle, req: CosignRequest, nowSec: U128)
    ensures
      var same := EqIgnoreCase(Hex0x(b.buyer), req.buyer) && EqIgnoreCase(Hex0x(b.seller), req.seller);
      Sound(x, b) && !PastDeadline(x.Frozen().value, nowSec) && DecodeBundle(req) != Some(b) ==>
        && Route(x, req, StoreBundle(b), nowSec) == Err(if same then MalformedSignature else CosignConflict)
        && (same ==> |req.buyer| > 1 && |req.seller| > 1 && (req.buyer[1] == 'X' || req.seller[1] == 'X'))
  {
    SameHalf(b.buyer, req.buyer);
    SameHalf(b.seller, req.seller);
    if SameSignatures(StoreBundle(b), req) {
      CaseVariant(b.buyer, req.buyer);
      CaseVariant(b.seller, req.seller);
    }
  }

  /** With nothing stored exactly the unexpired requests that decode to a sound bundle are accepted. */
  lemma FirstAcceptedIff(x: Setting, req: CosignRequest, nowSec: U128)
    ensures
      var r, b := Route(x, req, NOTHING_STORED, nowSec), DecodeBundle(req);
      && (r.Ok? <==> x.Frozen().Ok? && !PastDeadline(x.Frozen().value, nowSec) && b.Some? && Sound(x, b.value))
      && (r.Ok? ==> r.value == b.value)
  {
    if x.Digest().Ok? {
      var v := x.intent.version;
      var domain := DomainFor(v, x.config.chainId, EngineFor(x.config, v).value);
      VerifiedIff(x.hash, x.texts, x.recover, x.Frozen().value, domain, v, req);
    }
  }

  /** What the route accepts: a sound bundle, and over a stored one only that one again. */
  lemma RouteAccepts(x: Setting, req: CosignRequest, prior: Stored, nowSec: U128)
    requires StoredOk(x, prior)
    ensures
      var r := Route(x, req, prior, nowSec);
      r.Ok? ==> Sound(x, r.value) && (prior != NOTHING_STORED ==> StoreBundle(r.value) == prior)
  {
    if prior == NOTHING_STORED {
      FirstAcceptedIff(x, req, nowSec);
    } else {
      var b :| Sound(x, b) && prior == StoreBundle(b);
      ReplayAcceptedIff(x, b, req, nowSec);
    }
  }

  /** One whole cosign request, uninterrupted, while `active` happens to be the active version. */
  datatype Attempt = Attempt(req: CosignRequest, nowSec: U128, active: Version)

  function Cosigned(x: Setting, s: Stored, a: Attempt): (r: Stored) {
    match Route(x.At(a.active), a.req, s, a.nowSec)
    case Err(_) => s
    case Ok(b) => StoreBundle(b)
  }

  function CosignedAll(x: Setting, s: Stored, attempts: seq<Attempt>): (r: Stored)
    decreases |attempts|
  {
    if attempts == [] then s else CosignedAll(x, Cosigned(x, s, attempts[0]), attempts[1..])
  }

  lemma CosignedKeeps(x: Setting, s: Stored, a: Attempt)
    requires StoredOk(x, s)
    ensures StoredOk(x, Cosigned(x, s, a))
    ensures s != NOTHING_STORED ==> Cosigned(x, s, a) == s
  {
    var r := Route(x, a.req, s, a.nowSec);
    assert Route(x.At(a.active), a.req, s, a.nowSec) == r;
    if r.Ok? {
      RouteAccepts(x, a.req, s, a.nowSec);
      assert Sound(x, r.value) && StoreBundle(r.value) == StoreBundle(r.value);
    }
  }

  lemma {:induction false} SequenceStaysSound(x: Setting, s: Stored, attempts: seq<Attempt>)
    requires StoredOk(x, s)
    ensures StoredOk(x, CosignedAll(x, s, attempts))
    ensures s != NOTHING_STORED ==> CosignedAll(x, s, attempts) == s
    decreases |attempts|
  {
    if attempts != [] {
      CosignedKeeps(x, s, attempts[0]);
      SequenceStaysSound(x, Cosigned(x, s, attempts[0]), attempts[1..]);
    }
  }

  lemma {:induction false} SequenceSplits(x: Setting, s: Stored, first: seq<Attempt>, rest: seq<Attempt>)
    ensures CosignedAll(x, s, first + rest) == CosignedAll(x, CosignedAll(x, s, first), rest)
    decreases |first|
  {
    if first == [] {
      assert first + rest == rest;
    } else {
      assert (first + rest)[1..] == first[1..] + rest;
      SequenceSplits(x, Cosigned(x, s, first[0]), first[1..], rest);
    }
  }

  /**
   * For every sequence of cosign requests on one intent, at any times and under any active versions:
   * what is stored is nothing, or a bundle recovering to the frozen buyer and seller on the digest of
   * the persisted version; and what is stored after any part of the sequence is never replaced.
   */
  lemma FirstBundleStays(x: Setting, s: Stored, attempts: seq<Attempt>, k: nat)
    requires StoredOk(x, s) && k <= |attempts|
    ensures StoredOk(x, CosignedAll(x, s, attempts))
    ensures
      var first := CosignedAll(x, s, attempts[..k]);
      first != NOTHING_STORED ==> CosignedAll(x, s, attempts) == first
  {
    SequenceStaysSound(x, s, attempts);
    SequenceStaysSound(x, s, attempts[..k]);
    SequenceSplits(x, s, attempts[..k], attempts[k..]);
    assert attempts[..k] + attempts[k..] == attempts;
    SequenceStaysSound(x, CosignedAll(x, s, attempts[..k]), attempts[k..]);
  }

  // ---------------------------------------------------------------- overlapping requests

  /** A request that has read the stored signatures and not yet written. */
  datatype Reading = Reading(a: Attempt, prior: Stored)

  datatype Overlap = Overlap(stored: Stored, reading: map<nat, Reading>)

  datatype Step = Read(id: nat, a: Attempt) | Write(id: nat)

  /** The route reads, verifies, then writes; nothing locks the row in between. */
  function After(x: Setting, s: Overlap, step: Step): (r: Overlap) {
    match step
    case Read(id, a) => if id in s.reading then s else s.(reading := s.reading[id := Reading(a, s.stored)])
    case Write(id) =>
      if id !in s.reading then s
      else
        var w := s.reading[id];
        var rest := s.(reading := s.reading - {id});
        match Route(x.At(w.a.active), w.a.req, w.prior, w.a.nowSec)
        case Err(_) => rest
        case Ok(b) => rest.(stored := StoreBundle(b))
  }

  function AfterAll(x: Setting, s: Overlap, steps: seq<Step>): (r: Overlap)
    decreases |steps|
  {
    if steps == [] then s else AfterAll(x, After(x, s, steps[0]), steps[1..])
  }

  ghost predicate OverlapOk(x: Setting, s: Overlap) {
    StoredOk(x, s.stored) && forall id :: id in s.reading ==> StoredOk(x, s.reading[id].prior)
  }

  /**
   * Overlapping or not, a write stores a sound bundle; and it changes a stored bundle only if that was not
   * there when it read.
   */
  lemma AfterKeeps(x: Setting, s: Overlap, step: Step)
    requires OverlapOk(x, s)
    ensures OverlapOk(x, After(x, s, step))
    ensures
      var u := After(x, s, step);
      s.stored != NOTHING_STORED && u.stored != s.stored ==>
        step.Write? && step.id in s.reading && s.reading[step.id].prior != s.stored
  {
    if step.Write? && step.id in s.reading {
      var w := s.reading[step.id];
      var r := Route(x, w.a.req, w.prior, w.a.nowSec);
      assert Route(x.At(w.a.active), w.a.req, w.prior, w.a.nowSec) == r;
      if r.Ok? {
        RouteAccepts(x, w.a.req, w.prior, w.a.nowSec);
        assert Sound(x, r.value) && StoreBundle(r.value) == StoreBundle(r.value);
      }
    }
  }

  lemma {:induction false} OverlapStaysSound(x: Setting, s: Overlap, steps: seq<Step>)
    requires OverlapOk(x, s)
    ensures OverlapOk(x, AfterAll(x, s, steps))
    decreases |steps|
  {
    if steps != [] {
      AfterKeeps(x, s, steps[0]);
      OverlapStaysSound(x, After(x, s, steps[0]), steps[1..]);
    }
  }

  /**
   * Exactly when a write replaces a stored bundle: it read nothing and its own acceptable bundle differs,
   * or it replays an earlier bundle that was replaced since it read.
   */
  lemma WriteReplacesIff(x: Setting, s: Overlap, id: nat)
    requires OverlapOk(x, s) && s.stored != NOTHING_STORED && id in s.reading
    ensures
      var w := s.reading[id];
      var r := Route(x, w.a.req, w.prior, w.a.nowSec);
      After(x, s, Write(id)).stored != s.stored <==>
        r.Ok? && (if w.prior == NOTHING_STORED then StoreBundle(r.value) != s.stored else w.prior != s.stored)
  {
    var w := s.reading[id];
    assert Route(x.At(w.a.active), w.a.req, w.prior, w.a.nowSec) == Route(x, w.a.req, w.prior, w.a.nowSec);
    if Route(x, w.a.req, w.prior, w.a.nowSec).Ok? {
      RouteAccepts(x, w.a.req, w.prior, w.a.nowSec);
    }
  }

  /**
   * A request acceptable alone, with a bundle other than the stored one, that read nothing or what is
   * still stored: its write replaces the stored bundle exactly when it read nothing.
   */
  lemma ReplacesIffUnseen(x: Setting, s: Overlap, id: nat)
    requires OverlapOk(x, s) && s.stored != NOTHING_STORED && id in s.reading
    requires s.reading[id].prior == NOTHING_STORED || s.reading[id].prior == s.stored
    requires
      var w := s.reading[id];
      var alone := Route(x, w.a.req, NOTHING_STORED, w.a.nowSec);
      alone.Ok? && StoreBundle(alone.value) != s.stored
    ensures After(x, s, Write(id)).stored != s.stored <==> s.reading[id].prior == NOTHING_STORED
  {
    WriteReplacesIff(x, s, id);
  }

  /**
   * Two overlapping requests, each acceptable alone, with different bundles: the later write replaces the first
   * accepted bundle.
   */
  lemma OverlapReplaces(x: Setting, a: Attempt, b: Attempt)
    requires Route(x, a.req, NOTHING_STORED, a.nowSec).Ok? && Route(x, b.req, NOTHING_STORED, b.nowSec).Ok?
    requires
      var first, second := Route(x, a.req, NOTHING_STORED, a.nowSec), Route(x, b.req, NOTHING_STORED, b.nowSec);
      StoreBundle(first.value) != StoreBundle(second.value)
    ensures
      var s := Overlap(NOTHING_STORED, map[]);
      var first := AfterAll(x, s, [Read(0, a), Read(1, b), Write(0)]).stored;
      var last := AfterAll(x, s, [Read(0, a), Read(1, b), Write(0), Write(1)]).stored;
      && first == StoreBundle(Route(x, a.req, NOTHING_STORED, a.nowSec).value)
      && last == StoreBundle(Route(x, b.req, NOTHING_STORED, b.nowSec).value) && first != last
  {
    var s0 := Overlap(NOTHING_STORED, map[]);
    var s1 := After(x, s0, Read(0, a));
    var s2 := After(x, s1, Read(1, b));
    assert Route(x.At(a.active), a.req, NOTHING_STORED, a.nowSec) == Route(x, a.req, NOTHING_STORED, a.nowSec);
    assert Route(x.At(b.active), b.req, NOTHING_STORED, b.nowSec) == Route(x, b.req, NOTHING_STORED, b.nowSec);
    var s3 := After(x, s2, Write(0));
    var s4 := After(x, s3, Write(1));
    FourSteps(x, s0, Read(0, a), Read(1, b), Write(0), Write(1));
  }

  lemma FourSteps(x: Setting, s: Overlap, p: Step, q: Step, r: Step, u: Step)
    ensures
      var s3 := After(x, After(x, After(x, s, p), q), r);
      && AfterAll(x, s, [p, q, r]) == s3
      && AfterAll(x, s, [p, q, r, u]) == After(x, s3, u)
  {
    var s1 := After(x, s, p);
    var s2 := After(x, s1, q);
    var s3 := After(x, s2, r);
    assert [p, q, r][1..] == [q, r] && [q, r][1..] == [r] && [r][1..] == [];
    assert [p, q, r, u][1..] == [q, r, u] && [q, r, u][1..] == [r, u] && [r, u][1..] == [u] && [u][1..] == [];
    assert AfterAll(x, s3, [u]) == After(x, s3, u);
    assert AfterAll(x, s2, [r, u]) == After(x, s3, u);
    assert AfterAll(x, s2, [r]) == s3;
  }

  // ---------------------------------------------------------------- the stored signatures as an object

  class StoredTradeSignatures {
    var buyerSig: Option<string>
    var sellerSig: Option<string>

    constructor ()
      ensures Contents() == NOTHING_STORED
    {
      buyerSig, sellerSig := None, None;
    }

    function Contents(): (s: Stored)
      reads this
    {
      Stored(buyerSig, sellerSig)
    }

    /** `upsert`: a malformed seller signature is refused after the buyer's has already been replaced. */
    method Upsert(buyer: Option<string>, seller: Option<string>) returns (ok: bool)
      modifies this
      ensures ok <==>
        (buyer.Some? ==> ParseHex0x(buyer.value, 65).Some?) && (seller.Some? ==> ParseHex0x(seller.value, 65).Some?)
      ensures buyerSig == if buyer.Some? && ParseHex0x(buyer.value, 65).Some? then buyer else old(buyerSig)
      ensures sellerSig == if ok && seller.Some? then seller else old(sellerSig)
    {
      if buyer.Some? {
        if ParseHex0x(buyer.value, 65).None? {
          return false;
        }
        buyerSig := buyer;
      }
      if seller.Some? {
        if ParseHex0x(seller.value, 65).None? {
          return false;
        }
        sellerSig := seller;
      }
      return true;
    }
  }

  /** Whatever the route accepts can be printed and parsed again. */
  lemma AcceptedPrints(x: Setting, req: CosignRequest, prior: Stored, nowSec: U128)
    requires Route(x, req, prior, nowSec).Ok?
    ensures
      var b := Route(x, req, prior, nowSec).value;
      ParseHex0x(Hex0x(b.buyer), 65).Some? && ParseHex0x(Hex0x(b.seller), 65).Some?
  {
    var b := Route(x, req, prior, nowSec).value;
    assert DecodeBundle(req) == Some(b);
    PrintParsed(req.buyer, 65);
    PrintParsed(req.seller, 65);
    ParsePrinted(b.buyer);
    ParsePrinted(b.seller);
  }

  datatype IntentStatus =
    | Pending | DryRun | CalldataReady | SimulationOk | SimulationFailed
    | Prepared | Submitted | Confirmed | Failed | Abandoned

  predicate Cosignable(s: IntentStatus) {
    s == Pending || s == CalldataReady
  }

  /** A trade's execution intent: its status and its stored signatures. */
  class TradeIntent {
    var status: IntentStatus
    const signatures: StoredTradeSignatures

    constructor ()
      ensures status == Pending && fresh(signatures) && signatures.Contents() == NOTHING_STORED
    {
      status := Pending;
      signatures := new StoredTradeSignatures();
    }

    /** The trade is ready for calldata exactly when its signatures are stored. */
    predicate ReadyIffSigned()
      reads this, signatures
    {
      status == CalldataReady <==> signatures.Contents() != NOTHING_STORED
    }

    /**
     * The cosign route without interference: only a pending or ready intent is cosigned, and success leaves it
     * ready.
     */
    method CosignTrade(x: Setting, a: Attempt) returns (r: Result<Bundle, TradeError>)
      modifies this, signatures
      ensures old(status) != Pending && old(status) != CalldataReady ==>
        r == Err(NotCosignable) && status == old(status)
      ensures !Cosignable(old(status)) ==> signatures.Contents() == old(signatures.Contents())
      ensures old(status) == Pending || old(status) == CalldataReady ==>
        r == Route(x.At(a.active), a.req, old(signatures.Contents()), a.nowSec)
      ensures Cosignable(old(status)) ==> signatures.Contents() == Cosigned(x, old(signatures.Contents()), a)
      ensures status == if r.Ok? then CalldataReady else old(status)
      ensures Cosignable(old(status)) && old(ReadyIffSigned()) ==> ReadyIffSigned()
    {
      if !Cosignable(status) {
        return Err(NotCosignable);
      }
      var prior := signatures.Contents();
      r := Route(x.At(a.active), a.req, prior, a.nowSec);
      if r.Ok? {
        AcceptedPrints(x.At(a.active), a.req, prior, a.nowSec);
        var ok := signatures.Upsert(Some(Hex0x(r.value.buyer)), Some(Hex0x(r.value.seller)));
        if status == Pending {
          status := CalldataReady;
        }
      }
    }
  }
}
