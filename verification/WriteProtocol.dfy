/**
 * Many write requests at once. Each request claims its nonce, consults the idempotency-key index,
 * is checked for ambiguity, passes the version-2 nonce ledger, mutates only when no resource came
 * back, and attaches its resource after its own mutation. The steps of all requests interleave in
 * any order, a request may stop for good after any step, and every step sees its own clock.
 */
module WriteProtocol {
  import opened Text
  import opened Words
  import opened Actions
  import opened WriteDigest
  import opened ChallengeStore

  /** What does not change during a run: the hash, the domain texts, and which store is wired. */
  datatype World = World(hash: Hash, texts: DomainTexts, backend: Backend)

  /** An authorized write with its request digest; a version-2 envelope names its subaccount. */
  datatype Request = Request(write: SignedWrite, digest: Word, subaccount: Option<nat>)

  datatype Phase =
    | Arrived
    | Claimed(resource: Option<string>)
    | Resolved(resource: Option<string>)
    | Authorized(resource: Option<string>)
    | MayMutate
    | Mutated(created: string)
    | Answered(answer: string, own: bool)
    | Rejected

  /** A request in flight; `wasFresh` is set by a fresh claim. */
  datatype Live = Live(req: Request, wasFresh: bool, phase: Phase)

  datatype Mutation = Mutation(author: nat, nonce: Word, resource: string)

  type LedgerKey = (string, nat, Action, Word)

  datatype State = State(rows: Rows, used: set<LedgerKey>, live: map<nat, Live>, mutations: seq<Mutation>)

  const EMPTY := State(map[], {}, map[], [])

  datatype Label =
    | Issue(nonce: Word, account: string, action: Action, key: Option<string>, nowMs: int)
    | Arrive(id: nat, req: Request)
    | Claim(id: nat, nowMs: int)
    | Resolve(id: nat, found: Option<string>)
    | CheckAmbiguity(id: nat)
    | Proceed(id: nat)
    | Mutate(id: nat, resource: string)
    | Attach(id: nat, stored: bool)

  // ---------------------------------------------------------------- steps

  function ClaimArgsOf(req: Request, nowMs: int): (c: ClaimArgs) {
    ClaimArgs(req.write.nonce, req.write.account, req.write.action, CHAIN_ID, req.digest, req.write.idempotencyKey,
              nowMs)
  }

  function LedgerKeyOf(req: Request): (k: LedgerKey)
    requires req.subaccount.Some?
  {
    (Lower(req.write.account), req.subaccount.value, req.write.action, req.write.nonce)
  }

  function Put(s: State, id: nat, l: Live): (t: State) {
    s.(live := s.live[id := l])
  }

  function Phased(s: State, id: nat, p: Phase): (t: State)
    requires id in s.live
  {
    Put(s, id, s.live[id].(phase := p))
  }

  function AfterClaim(l: Live, outcome: ClaimOutcome): (t: Live) {
    match outcome
    case FreshClaim => Live(l.req, true, Claimed(None))
    case IdempotentReplay(resource) => l.(phase := Claimed(resource))
    case _ => l.(phase := Rejected)
  }

  /** The label can happen in s. A request arrives only with a digest, that is, past its
      signature check, and claims only before its signed deadline. */
  predicate Enabled(w: World, s: State, l: Label) {
    match l
    case Issue(nonce, _, _, _, _) => nonce !in s.rows
    case Arrive(id, req) => id !in s.live && RequestDigest(w.hash, w.texts, req.write) == Some(req.digest)
    case Claim(id, nowMs) => id in s.live && s.live[id].phase.Arrived? && nowMs < s.live[id].req.write.deadlineMs
    case Resolve(id, found) =>
      && id in s.live && s.live[id].phase.Claimed?
      && var req := s.live[id].req.write;
         if s.live[id].phase.resource.Some? then found == s.live[id].phase.resource
         else if req.idempotencyKey.None? then found.None?
         else LookupAnswers(s.rows, req.account, req.action, req.idempotencyKey.value, found)
    case CheckAmbiguity(id) => id in s.live && s.live[id].phase.Resolved?
    case Proceed(id) => id in s.live && s.live[id].phase.Authorized?
    case Mutate(id, _) => id in s.live && s.live[id].phase.MayMutate?
    case Attach(id, _) => id in s.live && s.live[id].phase.Mutated?
  }

  function Next(w: World, s: State, l: Label): (t: State)
    requires Enabled(w, s, l)
  {
    match l
    case Issue(nonce, account, action, key, nowMs) =>
      s.(rows := IssueRow(w.backend, s.rows, nonce, NewChallenge(account, action, key, nowMs)).value)
    case Arrive(id, req) => Put(s, id, Live(req, false, Arrived))
    case Claim(id, nowMs) =>
      var (rows, outcome) := ClaimRow(w.backend, s.rows, ClaimArgsOf(s.live[id].req, nowMs));
      Put(s, id, AfterClaim(s.live[id], outcome)).(rows := rows)
    case Resolve(id, found) => Phased(s, id, Resolved(found))
    case CheckAmbiguity(id) =>
      var resource := s.live[id].phase.resource;
      Phased(s, id, if !s.live[id].wasFresh && resource.None? then Rejected else Authorized(resource))
    case Proceed(id) =>
      var live := s.live[id];
      var next := if live.phase.resource.Some? then Answered(live.phase.resource.value, false) else MayMutate;
      if live.req.subaccount.Some? && live.wasFresh then
        var key := LedgerKeyOf(live.req);
        if key in s.used then Phased(s, id, Rejected)
        else Phased(s, id, next).(used := s.used + {key})
      else Phased(s, id, next)
    case Mutate(id, resource) =>
      var nonce := s.live[id].req.write.nonce;
      Phased(s, id, Mutated(resource)).(mutations := s.mutations + [Mutation(id, nonce, resource)])
    case Attach(id, stored) =>
      var resource := s.live[id].phase.created;
      var t := Phased(s, id, Answered(resource, true));
      if stored then t.(rows := AttachRow(w.backend, s.rows, s.live[id].req.write.nonce, resource)) else t
  }

  // ---------------------------------------------------------------- the invariant

  function Nonce(l: Live): (n: Word) {
    l.req.write.nonce
  }

  /** The row was issued for this request's account and action. */
  predicate Matches(r: ChallengeRecord, l: Live) {
    EqIgnoreCase(r.account, l.req.write.account) && r.action == l.req.write.action
  }

  /** A fresh claimant's row carries its digest and has left Issued. */
  predicate FreshRow(s: State, id: nat)
    requires id in s.live
  {
    var l := s.live[id];
    l.wasFresh ==>
      && !l.phase.Arrived? && Nonce(l) in s.rows && Matches(s.rows[Nonce(l)], l)
      && s.rows[Nonce(l)].status != Issued && s.rows[Nonce(l)].requestDigest == Some(l.req.digest)
  }

  predicate FreshRows(s: State) {
    forall id :: id in s.live ==> FreshRow(s, id)
  }

  /** No two requests hold the same nonce freshly. */
  predicate FreshUnique(s: State) {
    forall i, j ::
      (i in s.live && j in s.live && s.live[i].wasFresh && s.live[j].wasFresh && Nonce(s.live[i]) == Nonce(s.live[j]))
      ==> i == j
  }

  predicate OwnedBy(s: State, n: Word, id: nat)
    requires n in s.rows
  {
    && id in s.live && s.live[id].wasFresh && Nonce(s.live[id]) == n
    && Some(s.live[id].req.digest) == s.rows[n].requestDigest
  }

  ghost predicate OwnedBySome(s: State, n: Word)
    requires n in s.rows
  {
    exists id :: OwnedBy(s, n, id)
  }

  /** Every stored digest came from the fresh claimant of its nonce. */
  ghost predicate Owned(s: State) {
    forall n :: n in s.rows && s.rows[n].requestDigest.Some? ==> OwnedBySome(s, n)
  }

  predicate PhaseOk(l: Live) {
    match l.phase
    case Arrived => !l.wasFresh
    case Claimed(resource) => l.wasFresh ==> resource.None?
    case Authorized(resource) => l.wasFresh || resource.Some?
    case MayMutate => l.wasFresh
    case Mutated(_) => l.wasFresh
    case Answered(_, own) => own ==> l.wasFresh
    case _ => true
  }

  predicate PhasesOk(s: State) {
    forall id :: id in s.live ==> PhaseOk(s.live[id])
  }

  /** A recorded mutation belongs to a fresh claimant that is past mutating. */
  predicate MutationOk(s: State, k: nat)
    requires k < |s.mutations|
  {
    var m := s.mutations[k];
    && m.author in s.live && s.live[m.author].wasFresh && Nonce(s.live[m.author]) == m.nonce
    && (s.live[m.author].phase == Mutated(m.resource) || s.live[m.author].phase == Answered(m.resource, true))
  }

  predicate HasMutated(p: Phase) {
    p.Mutated? || (p.Answered? && p.own)
  }

  predicate MutationsOk(s: State) {
    && (forall k :: 0 <= k < |s.mutations| ==> MutationOk(s, k))
    && (forall i, j :: 0 <= i < j < |s.mutations| ==> s.mutations[i].author != s.mutations[j].author)
    && (forall id :: id in s.live && HasMutated(s.live[id].phase) ==>
          exists k :: 0 <= k < |s.mutations| && s.mutations[k].author == id)
  }

  /** An attached resource was created under that nonce. */
  predicate AttachedOk(s: State) {
    forall n :: n in s.rows && s.rows[n].resourceId.Some? ==>
      exists k :: 0 <= k < |s.mutations| && IsMutation(s.mutations[k], n, s.rows[n].resourceId)
  }

  predicate IsMutation(m: Mutation, nonce: Word, resource: Option<string>) {
    m.nonce == nonce && Some(m.resource) == resource
  }

  /** The k-th mutation was made under the request's own nonce, by the same request digest. */
  predicate SameNonceMutation(s: State, k: nat, req: Request)
    requires k < |s.mutations| && s.mutations[k].author in s.live
  {
    && s.mutations[k].nonce == req.write.nonce
    && s.live[s.mutations[k].author].req.digest == req.digest
  }

  /** The k-th mutation was made under a nonce issued for the request's account, action and key. */
  predicate SameKeyMutation(s: State, k: nat, req: Request)
    requires k < |s.mutations|
  {
    var n := s.mutations[k].nonce;
    && n in s.rows && req.write.idempotencyKey.Some?
    && OwnsKey(s.rows[n], req.write.account, req.write.action, req.write.idempotencyKey.value)
  }

  predicate Created(s: State, k: nat, req: Request, resource: string) {
    && k < |s.mutations| && s.mutations[k].resource == resource && s.mutations[k].author in s.live
    && (SameNonceMutation(s, k, req) || SameKeyMutation(s, k, req))
  }

  /** The resource was really created, for the same nonce and digest or for the same key. */
  ghost predicate Genuine(s: State, req: Request, resource: string) {
    exists k :: Created(s, k, req, resource)
  }

  function Held(p: Phase): (r: Option<string>) {
    match p
    case Claimed(resource) => resource
    case Resolved(resource) => resource
    case Authorized(resource) => resource
    case Answered(answer, own) => if own then None else Some(answer)
    case _ => None
  }

  ghost predicate HeldOk(s: State) {
    forall id :: id in s.live && Held(s.live[id].phase).Some? ==>
      Genuine(s, s.live[id].req, Held(s.live[id].phase).value)
  }

  /** A used version-2 nonce belongs to a fresh claimant that is past the ledger. */
  predicate PastLedger(p: Phase) {
    p.MayMutate? || p.Mutated? || p.Answered? || p.Rejected?
  }

  predicate UsedBy(s: State, k: LedgerKey, id: nat) {
    id in s.live && s.live[id].wasFresh && Nonce(s.live[id]) == k.3 && PastLedger(s.live[id].phase)
  }

  ghost predicate LedgerOk(s: State) {
    forall k :: k in s.used ==> exists id :: UsedBy(s, k, id)
  }

  ghost predicate Inv(s: State) {
    && RowsOk(s.rows) && FreshRows(s) && FreshUnique(s) && Owned(s) && PhasesOk(s)
    && MutationsOk(s) && AttachedOk(s) && HeldOk(s) && LedgerOk(s)
  }

  // ---------------------------------------------------------------- every step keeps it

  /** Nothing is forgotten: requests stay what they are, rows only advance, mutations only accumulate. */
  predicate Extends(s: State, t: State) {
    && (forall id :: id in s.live ==>
          id in t.live && t.live[id].req == s.live[id].req && (s.live[id].wasFresh ==> t.live[id].wasFresh))
    && RowsEvolve(s.rows, t.rows)
    && s.mutations <= t.mutations
  }

  lemma GenuineExtends(s: State, t: State, req: Request, resource: string)
    requires Extends(s, t) && Genuine(s, req, resource)
    ensures Genuine(t, req, resource)
  {
    var k: nat :| Created(s, k, req, resource);
    assert t.mutations[k] == s.mutations[k];
    assert Created(t, k, req, resource);
  }

  /** Whatever resource a request holds afterwards was already genuine before. */
  ghost predicate HeldFrom(s: State, t: State) {
    forall id :: id in t.live && Held(t.live[id].phase).Some? ==>
      Genuine(s, t.live[id].req, Held(t.live[id].phase).value)
  }

  lemma HeldFrame(s: State, t: State)
    requires Extends(s, t) && HeldFrom(s, t)
    ensures HeldOk(t)
  {
    forall id | id in t.live && Held(t.live[id].phase).Some?
      ensures Genuine(t, t.live[id].req, Held(t.live[id].phase).value)
    {
      GenuineExtends(s, t, t.live[id].req, Held(t.live[id].phase).value);
    }
  }

  /** Claims carry over when no request newly becomes fresh and no row newly gets a digest. */
  predicate KeepsClaims(s: State, t: State) {
    && RowsEvolve(s.rows, t.rows)
    && (forall n :: n in t.rows && t.rows[n].requestDigest.Some? ==>
          n in s.rows && s.rows[n].requestDigest == t.rows[n].requestDigest)
    && (forall id :: id in s.live ==>
          && id in t.live && t.live[id].req == s.live[id].req && t.live[id].wasFresh == s.live[id].wasFresh
          && (t.live[id].phase.Arrived? ==> s.live[id].phase.Arrived?))
    && (forall id :: id in t.live && t.live[id].wasFresh ==> id in s.live)
  }

  lemma ClaimsFrame(s: State, t: State)
    requires FreshRows(s) && FreshUnique(s) && Owned(s) && KeepsClaims(s, t)
    ensures FreshRows(t) && FreshUnique(t) && Owned(t)
  {
    forall i | i in t.live ensures FreshRow(t, i) {
      if t.live[i].wasFresh { assert FreshRow(s, i); }
    }
    forall n | n in t.rows && t.rows[n].requestDigest.Some? ensures OwnedBySome(t, n) {
      assert OwnedBySome(s, n);
      var i :| OwnedBy(s, n, i);
      assert OwnedBy(t, n, i);
    }
  }

  /** No request crosses its mutation. */
  predicate KeepsMutations(s: State, t: State) {
    && t.mutations == s.mutations
    && (forall id :: id in t.live && (id !in s.live || t.live[id].phase != s.live[id].phase) ==>
          !HasMutated(t.live[id].phase) && (id in s.live ==> !HasMutated(s.live[id].phase)))
  }

  lemma MutationsFrame(s: State, t: State)
    requires MutationsOk(s) && Extends(s, t) && KeepsMutations(s, t)
    ensures MutationsOk(t)
  {
    forall k | 0 <= k < |t.mutations| ensures MutationOk(t, k) { assert MutationOk(s, k); }
  }

  /** No request falls back behind the ledger, and a new entry has its claimant. */
  ghost predicate KeepsLedger(s: State, t: State) {
    && (forall id :: id in s.live && id in t.live && PastLedger(s.live[id].phase) ==> PastLedger(t.live[id].phase))
    && (forall k :: k in t.used && k !in s.used ==> exists id :: UsedBy(t, k, id))
  }

  lemma LedgerFrame(s: State, t: State)
    requires LedgerOk(s) && Extends(s, t) && KeepsLedger(s, t)
    ensures LedgerOk(t)
  {
    forall k | k in t.used ensures exists id :: UsedBy(t, k, id) {
      if k in s.used {
        var id :| UsedBy(s, k, id);
        assert UsedBy(t, k, id);
      }
    }
  }

  lemma FrameKeeps(s: State, t: State)
    requires Inv(s) && Extends(s, t) && HeldFrom(s, t) && KeepsClaims(s, t) && KeepsLedger(s, t)
    requires RowsOk(t.rows) && PhasesOk(t) && MutationsOk(t) && AttachedOk(t)
    ensures Inv(t)
  {
    HeldFrame(s, t);
    ClaimsFrame(s, t);
    LedgerFrame(s, t);
  }

  lemma QuietFrameKeeps(s: State, t: State)
    requires Inv(s) && Extends(s, t) && HeldFrom(s, t) && KeepsClaims(s, t) && KeepsLedger(s, t) && KeepsMutations(s, t)
    requires RowsOk(t.rows) && PhasesOk(t) && AttachedOk(t)
    ensures Inv(t)
  {
    MutationsFrame(s, t);
    FrameKeeps(s, t);
  }

  /** A step that only moves one request to a phase on the same side of its mutation. */
  predicate LocalStep(s: State, id: nat, p: Phase, used: set<LedgerKey>) {
    && id in s.live && PhaseOk(s.live[id].(phase := p)) && !p.Arrived?
    && !HasMutated(p) && !HasMutated(s.live[id].phase)
    && (PastLedger(s.live[id].phase) ==> PastLedger(p))
    && (forall k :: k in used && k !in s.used ==> k.3 == Nonce(s.live[id]) && s.live[id].wasFresh && PastLedger(p))
  }

  lemma LocalStepFrame(s: State, id: nat, p: Phase, used: set<LedgerKey>)
    requires LocalStep(s, id, p, used)
    ensures
      var t := Phased(s, id, p).(used := used);
      Extends(s, t) && KeepsClaims(s, t) && KeepsLedger(s, t) && KeepsMutations(s, t)
  {
    var t := Phased(s, id, p).(used := used);
    forall k | k in t.used && k !in s.used ensures exists i :: UsedBy(t, k, i) { assert UsedBy(t, k, id); }
  }

  lemma LocalStepKeeps(s: State, id: nat, p: Phase, used: set<LedgerKey>)
    requires Inv(s) && LocalStep(s, id, p, used)
    requires Held(p).Some? ==> Genuine(s, s.live[id].req, Held(p).value)
    ensures Inv(Phased(s, id, p).(used := used))
  {
    LocalStepFrame(s, id, p, used);
    QuietFrameKeeps(s, Phased(s, id, p).(used := used));
  }

  /** A resource found on a matching row was created for the same key. */
  lemma FoundByKey(s: State, req: Request, found: Option<string>)
    requires AttachedOk(s) && MutationsOk(s) && found.Some? && req.write.idempotencyKey.Some?
    requires LookupAnswers(s.rows, req.write.account, req.write.action, req.write.idempotencyKey.value, found)
    ensures Genuine(s, req, found.value)
  {
    var n :| n in s.rows && LookupHit(s.rows[n], req.write.account, req.write.action, req.write.idempotencyKey.value)
          && s.rows[n].resourceId == found;
    var k: nat :| k < |s.mutations| && IsMutation(s.mutations[k], n, s.rows[n].resourceId);
    assert MutationOk(s, k);
    assert Created(s, k, req, found.value);
  }

  /** A resource found on the request's own row was created for the same request digest. */
  lemma FoundByNonce(s: State, req: Request)
    requires AttachedOk(s) && MutationsOk(s) && FreshRows(s)
    requires req.write.nonce in s.rows
    requires s.rows[req.write.nonce].requestDigest == Some(req.digest) && s.rows[req.write.nonce].resourceId.Some?
    ensures Genuine(s, req, s.rows[req.write.nonce].resourceId.value)
  {
    var n := req.write.nonce;
    var k: nat :| k < |s.mutations| && IsMutation(s.mutations[k], n, s.rows[n].resourceId);
    assert MutationOk(s, k);
    assert FreshRow(s, s.mutations[k].author);
    assert Created(s, k, req, s.rows[n].resourceId.value);
  }

  lemma ResolveKeeps(w: World, s: State, id: nat, found: Option<string>)
    requires Inv(s) && Enabled(w, s, Resolve(id, found))
    ensures Inv(Next(w, s, Resolve(id, found)))
  {
    var live := s.live[id];
    if found.Some? && live.phase.resource.None? {
      FoundByKey(s, live.req, found);
    }
    LocalStepKeeps(s, id, Resolved(found), s.used);
  }

  lemma CheckAmbiguityKeeps(w: World, s: State, id: nat)
    requires Inv(s) && Enabled(w, s, CheckAmbiguity(id))
    ensures Inv(Next(w, s, CheckAmbiguity(id)))
  {
    var resource := s.live[id].phase.resource;
    LocalStepKeeps(s, id, if !s.live[id].wasFresh && resource.None? then Rejected else Authorized(resource), s.used);
  }

  /** The version-2 ledger never refuses: only the one fresh claimant of a nonce reaches it. */
  lemma LedgerNeverRefuses(s: State, id: nat)
    requires Inv(s) && id in s.live && s.live[id].phase.Authorized? && s.live[id].wasFresh
    requires s.live[id].req.subaccount.Some?
    ensures LedgerKeyOf(s.live[id].req) !in s.used
  {
  }

  lemma ProceedKeeps(w: World, s: State, id: nat)
    requires Inv(s) && Enabled(w, s, Proceed(id))
    ensures Inv(Next(w, s, Proceed(id)))
  {
    var live := s.live[id];
    var next := if live.phase.resource.Some? then Answered(live.phase.resource.value, false) else MayMutate;
    if live.req.subaccount.Some? && live.wasFresh {
      LedgerNeverRefuses(s, id);
      LocalStepKeeps(s, id, next, s.used + {LedgerKeyOf(live.req)});
    } else {
      LocalStepKeeps(s, id, next, s.used);
    }
  }

  // ------------------------------------------------ issue, arrive, claim

  lemma IssueKeeps(w: World, s: State, l: Label)
    requires Inv(s) && l.Issue? && Enabled(w, s, l)
    ensures Inv(Next(w, s, l))
  {
    var t := Next(w, s, l);
    QuietFrameKeeps(s, t);
  }

  lemma ArriveKeeps(s: State, id: nat, req: Request)
    requires Inv(s) && id !in s.live
    ensures Inv(Put(s, id, Live(req, false, Arrived)))
  {
    var t := Put(s, id, Live(req, false, Arrived));
    QuietFrameKeeps(s, t);
  }

  /** Rows differ at most by having been marked expired. */
  predicate OnlyExpired(before: Rows, after: Rows) {
    before.Keys == after.Keys && forall n :: n in before ==>
      after[n] == before[n] || after[n] == before[n].(status := Expired)
  }

  lemma ExpiryKeeps(s: State, rows: Rows)
    requires Inv(s) && OnlyExpired(s.rows, rows)
    ensures Inv(s.(rows := rows))
  {
    var t := s.(rows := rows);
    QuietFrameKeeps(s, t);
  }

  lemma UnfreshOnlyExpires(backend: Backend, rows: Rows, c: ClaimArgs)
    requires RowsOk(rows) && !ClaimRow(backend, rows, c).1.FreshClaim?
    ensures OnlyExpired(rows, ClaimRow(backend, rows, c).0)
  {
    ClaimMeaning(backend, rows, c);
    ClaimEvolves(backend, rows, c);
  }

  /** A resource that a replay hands out is genuine. */
  lemma ReplayGenuine(backend: Backend, s: State, req: Request, nowMs: int)
    requires Inv(s)
    requires ClaimRow(backend, s.rows, ClaimArgsOf(req, nowMs)).1.IdempotentReplay?
    requires ClaimRow(backend, s.rows, ClaimArgsOf(req, nowMs)).1.resourceId.Some?
    ensures Genuine(s, req, ClaimRow(backend, s.rows, ClaimArgsOf(req, nowMs)).1.resourceId.value)
  {
    ClaimMeaning(backend, s.rows, ClaimArgsOf(req, nowMs));
    FoundByNonce(s, req);
  }

  lemma UnfreshClaimKeeps(w: World, s: State, id: nat, nowMs: int)
    requires Inv(s) && Enabled(w, s, Claim(id, nowMs))
    requires !ClaimRow(w.backend, s.rows, ClaimArgsOf(s.live[id].req, nowMs)).1.FreshClaim?
    ensures Inv(Next(w, s, Claim(id, nowMs)))
  {
    var (rows, outcome) := ClaimRow(w.backend, s.rows, ClaimArgsOf(s.live[id].req, nowMs));
    UnfreshOnlyExpires(w.backend, s.rows, ClaimArgsOf(s.live[id].req, nowMs));
    ExpiryKeeps(s, rows);
    if outcome.IdempotentReplay? && outcome.resourceId.Some? {
      ReplayGenuine(w.backend, s, s.live[id].req, nowMs);
    }
    var p := if outcome.IdempotentReplay? then Claimed(outcome.resourceId) else Rejected;
    LocalStepKeeps(s.(rows := rows), id, p, s.used);
  }

  /** A request takes an issued row. */
  predicate Takes(s: State, id: nat, r: ChallengeRecord) {
    && id in s.live && s.live[id].phase.Arrived? && !s.live[id].wasFresh && Nonce(s.live[id]) in s.rows
    && var before := s.rows[Nonce(s.live[id])];
       && before.status == Issued && Matches(before, s.live[id])
       && r == before.(status := Consumed, requestDigest := Some(s.live[id].req.digest), consumedAtMs := r.consumedAtMs)
       && r.consumedAtMs.Some?
  }

  function Taken(s: State, id: nat, r: ChallengeRecord): (t: State)
    requires Takes(s, id, r)
  {
    Put(s, id, Live(s.live[id].req, true, Claimed(None))).(rows := s.rows[Nonce(s.live[id]) := r])
  }

  lemma TakenClaims(s: State, id: nat, r: ChallengeRecord)
    requires RowsOk(s.rows) && FreshRows(s) && FreshUnique(s) && Owned(s) && Takes(s, id, r)
    ensures var t := Taken(s, id, r); RowsOk(t.rows) && FreshRows(t) && FreshUnique(t) && Owned(t)
  {
    var t, nonce := Taken(s, id, r), Nonce(s.live[id]);
    forall i | i in s.live && s.live[i].wasFresh ensures Nonce(s.live[i]) != nonce { assert FreshRow(s, i); }
    forall i | i in t.live ensures FreshRow(t, i) { assert FreshRow(s, i); }
    forall n | n in t.rows && t.rows[n].requestDigest.Some? ensures OwnedBySome(t, n) {
      if n == nonce {
        assert OwnedBy(t, n, id);
      } else {
        assert OwnedBySome(s, n);
        var i :| OwnedBy(s, n, i);
        assert OwnedBy(t, n, i);
      }
    }
  }

  lemma TakenHeld(s: State, id: nat, r: ChallengeRecord)
    requires RowsOk(s.rows) && HeldOk(s) && Takes(s, id, r)
    ensures HeldOk(Taken(s, id, r))
  {
    HeldFrame(s, Taken(s, id, r));
  }

  lemma TakenMutations(s: State, id: nat, r: ChallengeRecord)
    requires RowsOk(s.rows) && PhasesOk(s) && MutationsOk(s) && AttachedOk(s) && LedgerOk(s) && Takes(s, id, r)
    ensures var t := Taken(s, id, r); PhasesOk(t) && MutationsOk(t) && AttachedOk(t) && LedgerOk(t)
  {
    MutationsFrame(s, Taken(s, id, r));
    LedgerFrame(s, Taken(s, id, r));
  }

  lemma TakenKeeps(s: State, id: nat, r: ChallengeRecord)
    requires Inv(s) && Takes(s, id, r)
    ensures Inv(Taken(s, id, r))
  {
    TakenClaims(s, id, r);
    TakenHeld(s, id, r);
    TakenMutations(s, id, r);
  }

  lemma FreshClaimKeeps(w: World, s: State, id: nat, nowMs: int)
    requires Inv(s) && Enabled(w, s, Claim(id, nowMs))
    requires ClaimRow(w.backend, s.rows, ClaimArgsOf(s.live[id].req, nowMs)).1.FreshClaim?
    ensures Inv(Next(w, s, Claim(id, nowMs)))
  {
    var c := ClaimArgsOf(s.live[id].req, nowMs);
    assert PhaseOk(s.live[id]);
    ClaimMeaning(w.backend, s.rows, c);
    var r := Consume(s.rows[c.nonce], c);
    TakenKeeps(s, id, r);
    assert Next(w, s, Claim(id, nowMs)) == Taken(s, id, r);
  }

  // ------------------------------------------------ mutate and attach

  lemma MutateKeeps(w: World, s: State, id: nat, resource: string)
    requires Inv(s) && Enabled(w, s, Mutate(id, resource))
    ensures Inv(Next(w, s, Mutate(id, resource)))
  {
    var t := Next(w, s, Mutate(id, resource));
    assert PhaseOk(s.live[id]);
    MutateMutations(w, s, id, resource);
    FrameKeeps(s, t);
  }

  lemma MutateMutations(w: World, s: State, id: nat, resource: string)
    requires MutationsOk(s) && AttachedOk(s) && Enabled(w, s, Mutate(id, resource)) && s.live[id].wasFresh
    ensures MutationsOk(Next(w, s, Mutate(id, resource))) && AttachedOk(Next(w, s, Mutate(id, resource)))
  {
    var t := Next(w, s, Mutate(id, resource));
    forall k | 0 <= k < |t.mutations| ensures MutationOk(t, k) && (k < |s.mutations| ==> t.mutations[k].author != id) {
      if k < |s.mutations| { assert MutationOk(s, k) && t.mutations[k] == s.mutations[k]; }
    }
    assert t.mutations[|s.mutations|].author == id;
    forall i | i in t.live && HasMutated(t.live[i].phase)
      ensures exists k :: 0 <= k < |t.mutations| && t.mutations[k].author == i
    {
      if i != id {
        var k :| 0 <= k < |s.mutations| && s.mutations[k].author == i;
        assert t.mutations[k].author == i;
      }
    }
    forall n | n in t.rows && t.rows[n].resourceId.Some?
      ensures exists k :: 0 <= k < |t.mutations| && IsMutation(t.mutations[k], n, t.rows[n].resourceId)
    {
      var k :| 0 <= k < |s.mutations| && IsMutation(s.mutations[k], n, s.rows[n].resourceId);
      assert t.mutations[k] == s.mutations[k];
    }
  }

  /** The request that is about to attach created the resource it attaches. */
  lemma OwnMutation(s: State, id: nat) returns (k: nat)
    requires MutationsOk(s) && id in s.live && s.live[id].phase.Mutated?
    ensures k < |s.mutations| && s.mutations[k] == Mutation(id, Nonce(s.live[id]), s.live[id].phase.created)
  {
    k :| 0 <= k < |s.mutations| && s.mutations[k].author == id;
    assert MutationOk(s, k);
  }

  /** Storing the resource on the author's own row. */
  lemma AttachRowKeeps(s: State, id: nat, r: ChallengeRecord)
    requires Inv(s) && id in s.live && s.live[id].phase.Mutated?
    requires Nonce(s.live[id]) in s.rows
    requires r == s.rows[Nonce(s.live[id])].(resourceId := Some(s.live[id].phase.created))
    ensures Inv(s.(rows := s.rows[Nonce(s.live[id]) := r]))
  {
    var t := s.(rows := s.rows[Nonce(s.live[id]) := r]);
    assert PhaseOk(s.live[id]) && FreshRow(s, id);
    var own := OwnMutation(s, id);
    AttachedRow(s, t, Nonce(s.live[id]), own);
    QuietFrameKeeps(s, t);
  }

  lemma AttachedRow(s: State, t: State, nonce: Word, own: nat)
    requires AttachedOk(s) && nonce in s.rows && own < |s.mutations| && s.mutations[own].nonce == nonce
    requires t == s.(rows := s.rows[nonce := s.rows[nonce].(resourceId := Some(s.mutations[own].resource))])
    ensures AttachedOk(t)
  {
  }

  lemma FinishKeeps(s: State, id: nat)
    requires Inv(s) && id in s.live && s.live[id].phase.Mutated?
    ensures Inv(Phased(s, id, Answered(s.live[id].phase.created, true)))
  {
    var t := Phased(s, id, Answered(s.live[id].phase.created, true));
    assert PhaseOk(s.live[id]);
    assert MutationsOk(t) by {
      forall k | 0 <= k < |t.mutations| ensures MutationOk(t, k) { assert MutationOk(s, k); }
    }
    FrameKeeps(s, t);
  }

  lemma AttachKeeps(w: World, s: State, id: nat, stored: bool)
    requires Inv(s) && Enabled(w, s, Attach(id, stored))
    ensures Inv(Next(w, s, Attach(id, stored)))
  {
    var resource, nonce := s.live[id].phase.created, Nonce(s.live[id]);
    var rows := if stored then AttachRow(w.backend, s.rows, nonce, resource) else s.rows;
    if rows != s.rows {
      AttachRowKeeps(s, id, rows[nonce]);
    }
    FinishKeeps(s.(rows := rows), id);
  }

  lemma StepKeeps(w: World, s: State, l: Label)
    requires Inv(s) && Enabled(w, s, l)
    ensures Inv(Next(w, s, l))
  {
    match l
    case Issue(_, _, _, _, _) => IssueKeeps(w, s, l);
    case Arrive(id, req) => ArriveKeeps(s, id, req);
    case Claim(id, nowMs) =>
      if ClaimRow(w.backend, s.rows, ClaimArgsOf(s.live[id].req, nowMs)).1.FreshClaim? {
        FreshClaimKeeps(w, s, id, nowMs);
      } else {
        UnfreshClaimKeeps(w, s, id, nowMs);
      }
    case Resolve(id, found) => ResolveKeeps(w, s, id, found);
    case CheckAmbiguity(id) => CheckAmbiguityKeeps(w, s, id);
    case Proceed(id) => ProceedKeeps(w, s, id);
    case Mutate(id, resource) => MutateKeeps(w, s, id, resource);
    case Attach(id, stored) => AttachKeeps(w, s, id, stored);
  }
}
