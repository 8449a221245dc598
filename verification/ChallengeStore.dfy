/**
 * The write-authorization challenge store: the in-memory store and the Postgres store as functions
 * on a table of rows, the in-memory store as an object, and the verification that runs against it.
 */
module ChallengeStore {
  import opened Text
  import opened Words
  import opened Actions
  import opened WriteDigest

  datatype Status = Issued | Consumed | Expired

  datatype ChallengeRecord = ChallengeRecord(
    account: string,
    action: Action,
    chainId: U64,
    issuedAtMs: int,
    expiresAtMs: int,
    status: Status,
    requestDigest: Option<Word>,
    idempotencyKey: Option<string>,
    resourceId: Option<string>,
    consumedAtMs: Option<int>
  )

  /** Rows by nonce. */
  type Rows = map<Word, ChallengeRecord>

  datatype ClaimOutcome =
    | FreshClaim
    | IdempotentReplay(resourceId: Option<string>)
    | ClaimPayloadMismatch
    | ClaimExpired
    | ClaimNotFound
    | IdempotencyKeyConflict

  datatype ClaimArgs = ClaimArgs(
    nonce: Word,
    account: string,
    action: Action,
    chainId: U64,
    digest: Word,
    key: Option<string>,
    nowMs: int
  )

  /** Which of the two stores backs the trait. */
  datatype Backend = Memory | Postgres

  // ---------------------------------------------------------------- the operations as functions

  predicate OwnsKey(r: ChallengeRecord, account: string, action: Action, key: string) {
    EqIgnoreCase(r.account, account) && r.action == action && r.idempotencyKey == Some(key)
  }

  /** A consumed row other than `nonce` owns the key. */
  predicate KeyTaken(rows: Rows, account: string, action: Action, key: string, nonce: Word) {
    exists n :: n in rows && n != nonce && rows[n].status == Consumed && OwnsKey(rows[n], account, action, key)
  }

  predicate Bound(r: ChallengeRecord, c: ClaimArgs) {
    EqIgnoreCase(r.account, c.account) && r.action == c.action && r.chainId == c.chainId
  }

  function IssueRow(backend: Backend, rows: Rows, nonce: Word, r: ChallengeRecord): (o: Option<Rows>) {
    if nonce in rows then None
    else if backend == Memory then Some(rows[nonce := r])
    else Some(rows[nonce := r.(account := Lower(r.account))])
  }

  function Consume(r: ChallengeRecord, c: ClaimArgs): (o: ChallengeRecord) {
    r.(status := Consumed, requestDigest := Some(c.digest), consumedAtMs := Some(c.nowMs))
  }

  /** The outcome for a consumed row: an exact retry, or the nonce reused for something else. */
  function ReplayOutcome(r: ChallengeRecord, c: ClaimArgs): (o: ClaimOutcome) {
    if r.requestDigest == Some(c.digest) then IdempotentReplay(r.resourceId) else ClaimPayloadMismatch
  }

  /** `InMemoryChallengeStore::claim`. */
  function MemoryClaim(rows: Rows, c: ClaimArgs): (o: (Rows, ClaimOutcome)) {
    if c.key.Some? && KeyTaken(rows, c.account, c.action, c.key.value, c.nonce) then (rows, IdempotencyKeyConflict)
    else if c.nonce !in rows || !Bound(rows[c.nonce], c) then (rows, ClaimNotFound)
    else
      var r := rows[c.nonce];
      if r.expiresAtMs <= c.nowMs then (rows[c.nonce := r.(status := Expired)], ClaimExpired)
      else match r.status
        case Issued => (rows[c.nonce := Consume(r, c)], FreshClaim)
        case Consumed => (rows, ReplayOutcome(r, c))
        case Expired => (rows, ClaimExpired)
  }

  /** `claim_write_auth_challenge`: the unique index is on the row's own key. */
  function PostgresClaim(rows: Rows, c: ClaimArgs): (o: (Rows, ClaimOutcome)) {
    if c.nonce !in rows || !Bound(rows[c.nonce], c) then (rows, ClaimNotFound)
    else
      var r := rows[c.nonce];
      if r.expiresAtMs <= c.nowMs then
        (if r.status == Issued then rows[c.nonce := r.(status := Expired)] else rows, ClaimExpired)
      else match r.status
        case Issued =>
          if r.idempotencyKey.Some? && KeyTaken(rows, r.account, r.action, r.idempotencyKey.value, c.nonce)
          then (rows, IdempotencyKeyConflict)
          else (rows[c.nonce := Consume(r, c)], FreshClaim)
        case Consumed => (rows, ReplayOutcome(r, c))
        case Expired => (rows, ClaimExpired)
  }

  function ClaimRow(backend: Backend, rows: Rows, c: ClaimArgs): (o: (Rows, ClaimOutcome)) {
    match backend
    case Memory => MemoryClaim(rows, c)
    case Postgres => PostgresClaim(rows, c)
  }

  predicate LookupHit(r: ChallengeRecord, account: string, action: Action, key: string) {
    OwnsKey(r, account, action, key) && r.status == Consumed && r.resourceId.Some?
  }

  /** `lookup_idempotent_result`: rows are searched in no particular order. */
  predicate LookupAnswers(rows: Rows, account: string, action: Action, key: string, found: Option<string>) {
    match found
    case Some(resource) =>
      exists n :: n in rows && LookupHit(rows[n], account, action, key) && rows[n].resourceId == found
    case None => forall n :: n in rows ==> !LookupHit(rows[n], account, action, key)
  }

  /** `attach_resource`. */
  function AttachRow(backend: Backend, rows: Rows, nonce: Word, resource: string): (o: Rows) {
    if nonce !in rows then rows
    else
      var r := rows[nonce];
      if backend == Memory || (r.status == Consumed && r.resourceId.None?)
      then rows[nonce := r.(resourceId := Some(resource))]
      else rows
  }

  predicate IsOutstanding(r: ChallengeRecord, account: string, action: Action, nowMs: int) {
    EqIgnoreCase(r.account, account) && r.action == action && r.status == Issued && r.expiresAtMs > nowMs
  }

  function Outstanding(rows: Rows, account: string, action: Action, nowMs: int): (s: set<Word>) {
    set n | n in rows && IsOutstanding(rows[n], account, action, nowMs)
  }

  /** The cap counts exactly the challenges that a request of the account and action could still claim freshly. */
  lemma OutstandingIsClaimable(rows: Rows, n: Word, account: string, action: Action, digest: Word, nowMs: int)
    requires n in rows
    ensures n in Outstanding(rows, account, action, nowMs) <==>
            MemoryClaim(rows, ClaimArgs(n, account, action, rows[n].chainId, digest, None, nowMs)).1 == FreshClaim
  {
  }

  /** Postgres attaches to a consumed row without a resource, and never a second time. */
  lemma PostgresAttaches(rows: Rows, nonce: Word, first: string, second: string)
    ensures
      var once := AttachRow(Postgres, rows, nonce, first);
      && AttachRow(Postgres, once, nonce, second) ==
         (if nonce in rows && rows[nonce].status == Consumed then once else rows)
      && once == if nonce in rows && rows[nonce].status == Consumed && rows[nonce].resourceId.None?
                 then rows[nonce := rows[nonce].(resourceId := Some(first))] else rows
  {
  }

  // ---------------------------------------------------------------- what a row can become

  function Rank(s: Status): (r: int) {
    match s case Issued => 0 case Consumed => 1 case Expired => 2
  }

  /** Status only advances; digest and consumption time are written once, together, on the way from
      Issued to Consumed; everything fixed at issue stays fixed. */
  predicate Evolves(r: ChallengeRecord, t: ChallengeRecord) {
    && (r.account, r.action, r.chainId, r.issuedAtMs, r.expiresAtMs, r.idempotencyKey) ==
       (t.account, t.action, t.chainId, t.issuedAtMs, t.expiresAtMs, t.idempotencyKey)
    && Rank(r.status) <= Rank(t.status)
    && (r.requestDigest.Some? ==> t.requestDigest == r.requestDigest)
    && (r.consumedAtMs.Some? ==> t.consumedAtMs == r.consumedAtMs)
    && (r.status != Issued ==> t.requestDigest == r.requestDigest && t.consumedAtMs == r.consumedAtMs)
  }

  predicate RowsEvolve(before: Rows, after: Rows) {
    forall n :: n in before ==> n in after && Evolves(before[n], after[n])
  }

  /** A digest is present exactly when a consumption time is, never before consumption, always after. */
  predicate RowOk(r: ChallengeRecord) {
    && (r.requestDigest.Some? <==> r.consumedAtMs.Some?)
    && (r.status == Issued ==> r.requestDigest.None? && r.resourceId.None?)
    && (r.status == Consumed ==> r.requestDigest.Some?)
  }

  predicate RowsOk(rows: Rows) {
    forall n :: n in rows ==> RowOk(rows[n])
  }

  lemma PostgresClaimEvolves(rows: Rows, c: ClaimArgs)
    requires RowsOk(rows)
    ensures RowsEvolve(rows, PostgresClaim(rows, c).0) && RowsOk(PostgresClaim(rows, c).0)
  {
  }

  lemma ClaimEvolves(backend: Backend, rows: Rows, c: ClaimArgs)
    requires RowsOk(rows)
    ensures RowsEvolve(rows, ClaimRow(backend, rows, c).0) && RowsOk(ClaimRow(backend, rows, c).0)
  {
    PostgresClaimEvolves(rows, c);
  }

  /**
   * A consumed row other than the claimed one owns the key: for the in-memory store the presented key,
   * whatever the claimed row is; for Postgres the key of a bound, live, issued row.
   */
  predicate KeyRefused(backend: Backend, rows: Rows, c: ClaimArgs) {
    match backend
    case Memory => c.key.Some? && KeyTaken(rows, c.account, c.action, c.key.value, c.nonce)
    case Postgres =>
      && c.nonce in rows && Bound(rows[c.nonce], c) && rows[c.nonce].status == Issued
      && c.nowMs < rows[c.nonce].expiresAtMs && rows[c.nonce].idempotencyKey.Some?
      && KeyTaken(rows, c.account, c.action, rows[c.nonce].idempotencyKey.value, c.nonce)
  }

  /** What each outcome tells about the row, before and after. */
  lemma ClaimMeaning(backend: Backend, rows: Rows, c: ClaimArgs)
    requires RowsOk(rows)
    ensures
      var (after, outcome) := ClaimRow(backend, rows, c);
      && (outcome.FreshClaim? <==>
          c.nonce in rows && c.nonce in after && rows[c.nonce].status == Issued && after[c.nonce].status == Consumed)
      && (outcome.FreshClaim? ==>
          && Bound(rows[c.nonce], c) && after == rows[c.nonce := after[c.nonce]]
          && after[c.nonce].requestDigest == Some(c.digest) && after[c.nonce].consumedAtMs == Some(c.nowMs))
      && (outcome.IdempotentReplay? ==>
          && after == rows && c.nonce in rows && Bound(rows[c.nonce], c) && rows[c.nonce].status == Consumed
          && rows[c.nonce].requestDigest == Some(c.digest) && outcome.resourceId == rows[c.nonce].resourceId)
      && (outcome.FreshClaim? || outcome.IdempotentReplay? ==> c.nowMs < rows[c.nonce].expiresAtMs)
      && (outcome.ClaimPayloadMismatch? ==>
          && c.nonce in rows && Bound(rows[c.nonce], c) && rows[c.nonce].status == Consumed
          && rows[c.nonce].requestDigest != Some(c.digest))
      && (outcome.ClaimExpired? ==>
          && c.nonce in rows && Bound(rows[c.nonce], c)
          && (rows[c.nonce].expiresAtMs <= c.nowMs || rows[c.nonce].status == Expired))
      && (outcome.ClaimNotFound? ==> c.nonce !in rows || !Bound(rows[c.nonce], c))
      && (outcome.IdempotencyKeyConflict? <==> KeyRefused(backend, rows, c))
      && (!outcome.FreshClaim? ==> forall n :: n in after ==>
          n in rows && (after[n] == rows[n] || after[n] == rows[n].(status := Expired)))
  {
  }

  // ---------------------------------------------------------------- one consumed row per key

  predicate SameOwner(r: ChallengeRecord, t: ChallengeRecord) {
    r.idempotencyKey.Some? && OwnsKey(t, r.account, r.action, r.idempotencyKey.value)
  }

  /** At most one consumed row per (case-folded account, action, key). */
  predicate UniqueConsumed(rows: Rows) {
    forall m, n :: m in rows && n in rows && BothConsumed(rows[m], rows[n]) && SameOwner(rows[m], rows[n]) ==> m == n
  }

  predicate BothConsumed(r: ChallengeRecord, t: ChallengeRecord) {
    r.status == Consumed && t.status == Consumed
  }

  /** Postgres keeps the invariant on every claim: its index looks at the row's own key. */
  lemma PostgresClaimKeepsUnique(rows: Rows, c: ClaimArgs)
    requires UniqueConsumed(rows)
    ensures UniqueConsumed(PostgresClaim(rows, c).0)
  {
  }

  /**
   * The in-memory store checks the key the request presents, not the row's. From a store with the
   * invariant, a claim keeps it exactly unless it freshly consumes a row whose own key is already
   * owned by a consumed row and which the request did not present.
   */
  lemma MemoryClaimKeepsUniqueIff(rows: Rows, c: ClaimArgs)
    requires UniqueConsumed(rows)
    ensures UniqueConsumed(MemoryClaim(rows, c).0) <==>
            !(MemoryClaim(rows, c).1.FreshClaim? && rows[c.nonce].idempotencyKey.Some?
              && KeyTaken(rows, c.account, c.action, rows[c.nonce].idempotencyKey.value, c.nonce))
  {
    var (after, outcome) := MemoryClaim(rows, c);
    if outcome.FreshClaim? && rows[c.nonce].idempotencyKey.Some?
       && KeyTaken(rows, c.account, c.action, rows[c.nonce].idempotencyKey.value, c.nonce) {
      var n :| n in rows && n != c.nonce && rows[n].status == Consumed
            && OwnsKey(rows[n], c.account, c.action, rows[c.nonce].idempotencyKey.value);
      assert SameOwner(after[c.nonce], after[n]);
    } else {
      forall m, n | m in after && n in after && after[m].status == Consumed && after[n].status == Consumed
        && SameOwner(after[m], after[n])
        ensures m == n
      {
        assert SameOwner(rows[m], rows[n]) && SameOwner(rows[n], rows[m]);
      }
    }
  }

  /** A claim that presents the key its row was issued with keeps the invariant in either store. */
  lemma MatchingClaimKeepsUnique(backend: Backend, rows: Rows, c: ClaimArgs)
    requires UniqueConsumed(rows)
    requires c.nonce in rows ==> rows[c.nonce].idempotencyKey == c.key
    ensures UniqueConsumed(ClaimRow(backend, rows, c).0)
  {
  }

  /** With the invariant, the unordered search has one possible answer. */
  lemma LookupDeterministic(rows: Rows, account: string, action: Action, key: string, a: Option<string>,
                            b: Option<string>)
    requires UniqueConsumed(rows)
    requires LookupAnswers(rows, account, action, key, a) && LookupAnswers(rows, account, action, key, b)
    ensures a == b
  {
  }

  /** An uninterrupted fresh claim with the issued key finds no earlier resource under that key. */
  lemma FreshFindsNothing(backend: Backend, rows: Rows, c: ClaimArgs, found: Option<string>)
    requires RowsOk(rows) && UniqueConsumed(rows)
    requires c.key.Some? && c.nonce in rows && rows[c.nonce].idempotencyKey == c.key
    requires ClaimRow(backend, rows, c).1.FreshClaim?
    requires LookupAnswers(ClaimRow(backend, rows, c).0, c.account, c.action, c.key.value, found)
    ensures found == None
  {
  }

  /**
   * In memory a lookup directly after a claim that passed without a resource finds nothing, whatever keys are
   * presented: the claim itself refuses a key that another consumed row has.
   */
  lemma MemoryLookupFindsNothing(rows: Rows, c: ClaimArgs, found: Option<string>)
    requires RowsOk(rows) && c.key.Some?
    requires MemoryClaim(rows, c).1 == FreshClaim || MemoryClaim(rows, c).1 == IdempotentReplay(None)
    requires LookupAnswers(MemoryClaim(rows, c).0, c.account, c.action, c.key.value, found)
    ensures found == None
  {
  }

  /**
   * The two stores give the same outcome and the same rows whenever the claim presents the issued
   * key to an existing bound row that is live and not marked expired.
   */
  lemma StoresAgree(rows: Rows, c: ClaimArgs)
    requires UniqueConsumed(rows)
    requires c.nonce in rows && Bound(rows[c.nonce], c) && rows[c.nonce].idempotencyKey == c.key
    requires c.nowMs < rows[c.nonce].expiresAtMs
    requires rows[c.nonce].status != Expired
    ensures MemoryClaim(rows, c) == PostgresClaim(rows, c)
  {
  }

  // ---------------------------------------------------------------- the envelope checks

  datatype WriteAuthError =
    | InvalidSignature | SignerMismatch | DeadlineExpired | NonceNotFound | NonceAlreadyUsed | ActionMismatch
    | ChainMismatch | PayloadMismatch | IdempotencyConflict | TooManyOutstandingChallenges | AmbiguousPriorClaim

  datatype AuthorizationEnvelope = AuthorizationEnvelope(
    action: string,
    account: string,
    nonce: string,
    deadlineMs: I64,
    signature: string,
    idempotencyKey: Option<string>
  )

  /** Public key recovery: a digest and 65 signature bytes to an address, or failure. */
  type Recover = (Word, seq<Byte>) -> Option<Address20>

  /** `recover_eip712_signer`. */
  function RecoverSigner(recover: Recover, digest: Word, signature: string): (r: Option<string>) {
    match ParseHex0x(signature, 65)
    case None => None
    case Some(bytes) =>
      match recover(digest, bytes)
      case None => None
      case Some(address) => Some(Hex0x(address))
  }

  function ParseNonce(s: string): (r: Option<Word>) {
    match ParseHex0x(s, 32)
    case None => None
    case Some(b) => PrintParsed(s, 32); Some(b)
  }

  /** What the route knows about a write it is about to authorize. */
  datatype Expected = Expected(action: Action, account: string, payload: seq<Byte>, chainId: U64, nowMs: int)

  function SignedOver(env: AuthorizationEnvelope, x: Expected, nonce: Word): (w: SignedWrite) {
    SignedWrite(x.action, x.account, x.payload, nonce, env.deadlineMs, env.idempotencyKey)
  }

  /** The checks of `verify_and_claim` before the claim, in their order. */
  function CheckEnvelope(h: Hash, t: DomainTexts, recover: Recover, env: AuthorizationEnvelope, x: Expected)
    : (r: Result<SignedWrite, WriteAuthError>)
  {
    if x.chainId != CHAIN_ID then Err(ChainMismatch)
    else if ParseAction(env.action) != Some(x.action) then Err(ActionMismatch)
    else if !EqIgnoreCase(env.account, x.account) then Err(SignerMismatch)
    else if env.deadlineMs <= x.nowMs then Err(DeadlineExpired)
    else if ParseHex0x(env.signature, 65).None? then Err(InvalidSignature)
    else
      match ParseNonce(env.nonce)
      case None => Err(NonceNotFound)
      case Some(nonce) =>
        var w := SignedOver(env, x, nonce);
        match Digest(h, t, w)
        case None => Err(InvalidSignature)
        case Some(digest) =>
          match RecoverSigner(recover, digest, env.signature)
          case None => Err(InvalidSignature)
          case Some(signer) => if EqIgnoreCase(signer, x.account) then Ok(w) else Err(SignerMismatch)
  }

  /** The signature in the envelope recovers, over this write's digest, to the account. */
  predicate SignedByAccount(h: Hash, t: DomainTexts, recover: Recover, env: AuthorizationEnvelope, x: Expected,
                            nonce: Word) {
    var w := SignedOver(env, x, nonce);
    && Digest(h, t, w).Some? && ParseHex0x(env.signature, 65).Some?
    && recover(Digest(h, t, w).value, ParseHex0x(env.signature, 65).value) == AccountBytes(x.account)
  }

  lemma SignerIsAccount(recover: Recover, digest: Word, signature: string, account: string)
    requires AccountBytes(account).Some? && ParseHex0x(signature, 65).Some?
    ensures
      var signer := RecoverSigner(recover, digest, signature);
      (signer.Some? && EqIgnoreCase(signer.value, account)) <==>
        recover(digest, ParseHex0x(signature, 65).value) == AccountBytes(account)
  {
    PrintParsed(account, 20);
    var recovered := recover(digest, ParseHex0x(signature, 65).value);
    if recovered.Some? {
      ParsePrinted(recovered.value);
      ParseEqualIffSameLower(Hex0x(recovered.value), account, 20);
    }
  }

  /**
   * An envelope passes exactly on the right chain, for the expected action and account, before its
   * deadline, with a well-formed nonce, and signed over exactly this write by the account's key.
   */
  lemma AcceptsExactly(h: Hash, t: DomainTexts, recover: Recover, env: AuthorizationEnvelope, x: Expected)
    ensures CheckEnvelope(h, t, recover, env, x).Ok? <==>
      && x.chainId == CHAIN_ID && env.action == ActionName(x.action) && EqIgnoreCase(env.account, x.account)
      && x.nowMs < env.deadlineMs && ParseNonce(env.nonce).Some?
      && SignedByAccount(h, t, recover, env, x, ParseNonce(env.nonce).value)
    ensures CheckEnvelope(h, t, recover, env, x).Ok? ==>
      && ParseNonce(env.nonce).Some? && RequestDigest(h, t, CheckEnvelope(h, t, recover, env, x).value).Some?
      && CheckEnvelope(h, t, recover, env, x).value == SignedOver(env, x, ParseNonce(env.nonce).value)
  {
    ActionNamesExact(x.action, env.action);
    if ParseNonce(env.nonce).Some? {
      var w := SignedOver(env, x, ParseNonce(env.nonce).value);
      if Digest(h, t, w).Some? && ParseHex0x(env.signature, 65).Some? {
        SignerIsAccount(recover, Digest(h, t, w).value, env.signature, x.account);
      }
    }
  }

  datatype Verified = Verified(write: SignedWrite, wasFresh: bool, resource: Option<string>)

  function ClaimOf(w: SignedWrite, digest: Word, x: Expected): (c: ClaimArgs) {
    ClaimArgs(w.nonce, x.account, x.action, x.chainId, digest, w.idempotencyKey, x.nowMs)
  }

  /** The tail of `verify_and_claim`: what an outcome, and a resource looked up, amount to. */
  function OutcomeError(o: ClaimOutcome): (r: Option<WriteAuthError>) {
    match o
    case FreshClaim => None
    case IdempotentReplay(_) => None
    case ClaimPayloadMismatch => Some(PayloadMismatch)
    case ClaimExpired => Some(DeadlineExpired)
    case ClaimNotFound => Some(NonceNotFound)
    case IdempotencyKeyConflict => Some(IdempotencyConflict)
  }

  // ---------------------------------------------------------------- the store as an object

  lemma CountOne(all: set<Word>, todo: set<Word>, n: Word)
    requires n in todo
    ensures |all * todo| == |all * (todo - {n})| + if n in all then 1 else 0
  {
    assert all * todo == all * (todo - {n}) + if n in all then {n} else {};
  }

  class InMemoryChallengeStore {
    var rows: Rows

    constructor ()
      ensures rows == map[]
    {
      rows := map[];
    }

    method Issue(nonce: Word, record: ChallengeRecord) returns (r: Result<(), WriteAuthError>)
      modifies this
      ensures r.Err? <==> nonce in old(rows)
      ensures r.Err? ==> r.error == NonceAlreadyUsed && rows == old(rows)
      ensures r.Ok? ==> IssueRow(Memory, old(rows), nonce, record) == Some(rows)
    {
      if nonce in rows {
        return Err(NonceAlreadyUsed);
      }
      rows := rows[nonce := record];
      return Ok(());
    }

    /** Filters and counts the rows, in no particular order. */
    method CountOutstanding(account: string, action: Action, nowMs: int) returns (count: nat)
      ensures count == |Outstanding(rows, account, action, nowMs)|
    {
      ghost var all := Outstanding(rows, account, action, nowMs);
      count := 0;
      var todo := rows.Keys;
      assert all * todo == all;
      while todo != {}
        invariant todo <= rows.Keys
        invariant count + |all * todo| == |all|
        decreases todo
      {
        var n :| n in todo;
        CountOne(all, todo, n);
        if IsOutstanding(rows[n], account, action, nowMs) {
          count := count + 1;
        }
        todo := todo - {n};
      }
    }

    method Claim(c: ClaimArgs) returns (outcome: ClaimOutcome)
      modifies this
      ensures (rows, outcome) == MemoryClaim(old(rows), c)
    {
      if c.key.Some? {
        var taken := KeyTaken(rows, c.account, c.action, c.key.value, c.nonce);
        if taken {
          return IdempotencyKeyConflict;
        }
      }
      if c.nonce !in rows {
        return ClaimNotFound;
      }
      var record := rows[c.nonce];
      if !Bound(record, c) {
        return ClaimNotFound;
      }
      if record.expiresAtMs <= c.nowMs {
        rows := rows[c.nonce := record.(status := Expired)];
        return ClaimExpired;
      }
      match record.status
      case Issued =>
        record := record.(status := Consumed);
        record := record.(requestDigest := Some(c.digest));
        record := record.(consumedAtMs := Some(c.nowMs));
        rows := rows[c.nonce := record];
        return FreshClaim;
      case Consumed =>
        if record.requestDigest == Some(c.digest) {
          return IdempotentReplay(record.resourceId);
        }
        return ClaimPayloadMismatch;
      case Expired =>
        return ClaimExpired;
    }

    method LookupIdempotentResult(account: string, action: Action, key: string) returns (found: Option<string>)
      ensures LookupAnswers(rows, account, action, key, found)
    {
      if n :| n in rows && LookupHit(rows[n], account, action, key) {
        return rows[n].resourceId;
      }
      return None;
    }

    method AttachResource(nonce: Word, resource: string)
      modifies this
      ensures rows == AttachRow(Memory, old(rows), nonce, resource)
      ensures nonce !in old(rows) ==> rows == old(rows)
      ensures nonce in old(rows) ==> rows == old(rows)[nonce := old(rows)[nonce].(resourceId := Some(resource))]
    {
      if nonce in rows {
        rows := rows[nonce := rows[nonce].(resourceId := Some(resource))];
      }
    }

    /** The challenge route: refuses at 32 outstanding challenges, so it never leaves more. */
    method IssueChallenge(nonce: Word, account: string, action: Action, key: Option<string>, nowMs: int)
      returns (r: Result<(), WriteAuthError>)
      modifies this
      ensures r.Err? ==> rows == old(rows)
      ensures r == Err(TooManyOutstandingChallenges) <==>
              |Outstanding(old(rows), account, action, nowMs)| >= MAX_OUTSTANDING
      ensures r.Ok? ==>
        && nonce !in old(rows)
        && rows == old(rows)[nonce := ChallengeRecord(
                             account, action, CHAIN_ID, nowMs, nowMs + 300_000, Issued, None, key, None, None)]
        && Outstanding(rows, account, action, nowMs) == Outstanding(old(rows), account, action, nowMs) + {nonce}
        && |Outstanding(rows, account, action, nowMs)| <= MAX_OUTSTANDING
    {
      var count := CountOutstanding(account, action, nowMs);
      if count >= MAX_OUTSTANDING {
        return Err(TooManyOutstandingChallenges);
      }
      r := Issue(nonce, NewChallenge(account, action, key, nowMs));
      if r.Ok? {
        assert Outstanding(rows, account, action, nowMs) == Outstanding(old(rows), account, action, nowMs) + {nonce};
      }
    }

    /**
     * The tail of `verify_and_claim`, uninterrupted: a fresh claim comes back without a resource, a replay with
     * the one on its row or as ambiguous. The lookup by key never changes that.
     */
    method ClaimAndResolve(c: ClaimArgs) returns (r: Result<(bool, Option<string>), WriteAuthError>)
      requires RowsOk(rows)
      modifies this
      ensures RowsOk(rows) && RowsEvolve(old(rows), rows)
      ensures
        var (after, outcome) := MemoryClaim(old(rows), c);
        rows == after && r == Resolution(outcome)
    {
      ClaimEvolves(Memory, rows, c);
      ClaimMeaning(Memory, rows, c);
      var outcome := Claim(c);
      var error := OutcomeError(outcome);
      if error.Some? {
        return Err(error.value);
      }
      var wasFresh := outcome.FreshClaim?;
      var resource := if wasFresh then None else outcome.resourceId;
      if resource.None? && c.key.Some? {
        resource := LookupIdempotentResult(c.account, c.action, c.key.value);
        MemoryLookupFindsNothing(old(rows), c, resource);
      }
      if !wasFresh && resource.None? {
        return Err(AmbiguousPriorClaim);
      }
      return Ok((wasFresh, resource));
    }

    /** `verify_and_claim`: nothing changes unless every check of the envelope passes. */
    method VerifyAndClaim(h: Hash, t: DomainTexts, recover: Recover, env: AuthorizationEnvelope, x: Expected)
      returns (r: Result<Verified, WriteAuthError>)
      requires RowsOk(rows)
      modifies this
      ensures RowsOk(rows) && RowsEvolve(old(rows), rows)
      ensures CheckEnvelope(h, t, recover, env, x).Err? ==>
        rows == old(rows) && r == Err(CheckEnvelope(h, t, recover, env, x).error)
      ensures CheckEnvelope(h, t, recover, env, x).Ok? ==>
        var w := CheckEnvelope(h, t, recover, env, x).value;
        RequestDigest(h, t, w).Some? &&
        var c := ClaimOf(w, RequestDigest(h, t, w).value, x);
        var (after, outcome) := MemoryClaim(old(rows), c);
        && rows == after
        && match Resolution(outcome)
           case Err(error) => r == Err(error)
           case Ok((wasFresh, resource)) => r == Ok(Verified(w, wasFresh, resource))
    {
      var checked := CheckEnvelope(h, t, recover, env, x);
      if checked.Err? {
        return Err(checked.error);
      }
      var w := checked.value;
      AcceptsExactly(h, t, recover, env, x);
      var c := ClaimOf(w, RequestDigest(h, t, w).value, x);
      var resolved := ClaimAndResolve(c);
      match resolved
      case Err(error) => return Err(error);
      case Ok((wasFresh, resource)) => return Ok(Verified(w, wasFresh, resource));
    }
  }

  /** What the tail of `verify_and_claim` answers for an outcome of the claim. */
  function Resolution(outcome: ClaimOutcome): (r: Result<(bool, Option<string>), WriteAuthError>) {
    match outcome
    case FreshClaim => Ok((true, None))
    case IdempotentReplay(Some(resource)) => Ok((false, Some(resource)))
    case IdempotentReplay(None) => Err(AmbiguousPriorClaim)
    case _ => Err(OutcomeError(outcome).value)
  }

  const CHALLENGE_TTL_MS: int := 300_000

  const MAX_OUTSTANDING: nat := 32

  function NewChallenge(account: string, action: Action, key: Option<string>, nowMs: int): (r: ChallengeRecord) {
    ChallengeRecord(account, action, CHAIN_ID, nowMs, nowMs + CHALLENGE_TTL_MS, Issued, None, key, None, None)
  }
}
