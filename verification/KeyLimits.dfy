/**
 * Exactly when two requests of one account and action can both mutate, by the keys their challenges
 * were issued with and the keys they present. Two stores, with and without claims on expired rows.
 */
module KeyLimits {
  import opened Text
  import opened Words
  import opened Actions
  import opened WriteDigest
  import opened ChallengeStore
  import opened WriteProtocol
  import opened ExactlyOnce

  // ---------------------------------------------------------------- reaching a state

  /** A claim on a consumed row after its expiry. */
  predicate LateStep(s: State, l: Label) {
    l.Claim? && l.id in s.live && Late(s.rows, ClaimArgsOf(s.live[l.id].req, l.nowMs))
  }

  predicate OnTime(run: seq<State>, labels: seq<Label>) {
    forall i :: 0 <= i < |labels| && i < |run| ==> !LateStep(run[i], labels[i])
  }

  /** Some run ends in s; if `timely`, one without late claims. */
  ghost predicate Reaches(w: World, s: State, timely: bool) {
    exists run, labels :: IsRun(w, run, labels) && run[|labels|] == s && (timely ==> OnTime(run, labels))
  }

  lemma ReachesEmpty(w: World, timely: bool)
    ensures Reaches(w, EMPTY, timely)
  {
    var run, labels: seq<Label> := [EMPTY], [];
    assert IsRun(w, run, labels) && OnTime(run, labels);
  }

  lemma ReachesNext(w: World, s: State, l: Label, timely: bool)
    requires Reaches(w, s, timely) && Enabled(w, s, l) && (timely ==> !LateStep(s, l))
    ensures Reaches(w, Next(w, s, l), timely)
  {
    var run, labels :| IsRun(w, run, labels) && run[|labels|] == s && (timely ==> OnTime(run, labels));
    RunExtends(w, run, labels, l);
    var longer, more := run + [Next(w, s, l)], labels + [l];
    assert longer[|more|] == Next(w, s, l);
  }

  lemma ReachesInv(w: World, s: State, timely: bool)
    requires Reaches(w, s, timely)
    ensures Inv(s)
  {
    var run, labels :| IsRun(w, run, labels) && run[|labels|] == s && (timely ==> OnTime(run, labels));
    RunKeepsInv(w, run, labels, |labels|);
  }

  predicate NoResources(rows: Rows) {
    forall n :: n in rows ==> rows[n].resourceId.None?
  }

  /** A fresh claim. */
  lemma ClaimsFreshly(w: World, s: State, id: nat, nowMs: int, timely: bool)
    requires Reaches(w, s, timely) && Enabled(w, s, Claim(id, nowMs))
    requires ClaimRow(w.backend, s.rows, ClaimArgsOf(s.live[id].req, nowMs)).1.FreshClaim?
    ensures
      var rows := ClaimRow(w.backend, s.rows, ClaimArgsOf(s.live[id].req, nowMs)).0;
      Reaches(w, Put(s, id, Live(s.live[id].req, true, Claimed(None))).(rows := rows), timely)
  {
    ReachesInv(w, s, timely);
    ClaimMeaning(w.backend, s.rows, ClaimArgsOf(s.live[id].req, nowMs));
    ReachesNext(w, s, Claim(id, nowMs), timely);
  }

  lemma FindsNothing(w: World, s: State, id: nat, timely: bool)
    requires Reaches(w, s, timely) && NoResources(s.rows) && id in s.live && s.live[id].phase == Claimed(None)
    ensures Reaches(w, Phased(s, id, Resolved(None)), timely)
  {
    ReachesNext(w, s, Resolve(id, None), timely);
  }

  lemma IsAuthorized(w: World, s: State, id: nat, timely: bool)
    requires Reaches(w, s, timely) && id in s.live && s.live[id].wasFresh && s.live[id].phase == Resolved(None)
    ensures Reaches(w, Phased(s, id, Authorized(None)), timely)
  {
    ReachesNext(w, s, CheckAmbiguity(id), timely);
  }

  /** The ledger once the request's key is in it. */
  function Entered(used: set<LedgerKey>, req: Request): (r: set<LedgerKey>) {
    if req.subaccount.Some? then used + {LedgerKeyOf(req)} else used
  }

  lemma MayProceed(w: World, s: State, id: nat, timely: bool)
    requires Reaches(w, s, timely) && id in s.live && s.live[id].wasFresh && s.live[id].phase == Authorized(None)
    ensures Reaches(w, Phased(s, id, MayMutate).(used := Entered(s.used, s.live[id].req)), timely)
  {
    if s.live[id].req.subaccount.Some? {
      ReachesInv(w, s, timely);
      LedgerNeverRefuses(s, id);
    }
    ReachesNext(w, s, Proceed(id), timely);
  }

  /** One more mutation. */
  function WithOne(s: State, id: nat): (r: seq<Mutation>)
    requires id in s.live
  {
    s.mutations + [Mutation(id, Nonce(s.live[id]), [])]
  }

  lemma Mutates(w: World, s: State, id: nat, timely: bool)
    requires Reaches(w, s, timely) && id in s.live && s.live[id].phase.MayMutate?
    ensures Reaches(w, Phased(s, id, Mutated([])).(mutations := WithOne(s, id)), timely)
  {
    ReachesNext(w, s, Mutate(id, []), timely);
  }

  /** The state after a request claims freshly, finds nothing and mutates. */
  function Through(w: World, s: State, id: nat, nowMs: int): (t: State)
    requires id in s.live
  {
    State(ClaimRow(w.backend, s.rows, ClaimArgsOf(s.live[id].req, nowMs)).0, Entered(s.used, s.live[id].req),
          s.live[id := Live(s.live[id].req, true, Mutated([]))], WithOne(s, id))
  }

  lemma FreshGoesThrough(w: World, s: State, id: nat, nowMs: int, timely: bool)
    requires Reaches(w, s, timely) && Enabled(w, s, Claim(id, nowMs))
    requires ClaimRow(w.backend, s.rows, ClaimArgsOf(s.live[id].req, nowMs)).1.FreshClaim?
    requires NoResources(ClaimRow(w.backend, s.rows, ClaimArgsOf(s.live[id].req, nowMs)).0)
    ensures Reaches(w, Through(w, s, id, nowMs), timely)
  {
    var rows := ClaimRow(w.backend, s.rows, ClaimArgsOf(s.live[id].req, nowMs)).0;
    ClaimsFreshly(w, s, id, nowMs, timely);
    ClaimantGoesThrough(w, Put(s, id, Live(s.live[id].req, true, Claimed(None))).(rows := rows), id, timely);
    assert s.live[id := Live(s.live[id].req, true, Claimed(None))][id := Live(s.live[id].req, true, Mutated([]))]
        == s.live[id := Live(s.live[id].req, true, Mutated([]))];
  }

  lemma ClaimantGoesThrough(w: World, s: State, id: nat, timely: bool)
    requires Reaches(w, s, timely) && NoResources(s.rows) && id in s.live && s.live[id].wasFresh
    requires s.live[id].phase == Claimed(None)
    ensures
      var used := Entered(s.used, s.live[id].req);
      Reaches(w, Phased(s, id, Mutated([])).(used := used, mutations := WithOne(s, id)), timely)
  {
    ClaimantMayMutate(w, s, id, timely);
    var s1 := Phased(s, id, MayMutate).(used := Entered(s.used, s.live[id].req));
    Mutates(w, s1, id, timely);
    Rephased(s, id, MayMutate, Mutated([]));
  }

  lemma ClaimantMayMutate(w: World, s: State, id: nat, timely: bool)
    requires Reaches(w, s, timely) && NoResources(s.rows) && id in s.live && s.live[id].wasFresh
    requires s.live[id].phase == Claimed(None)
    ensures Reaches(w, Phased(s, id, MayMutate).(used := Entered(s.used, s.live[id].req)), timely)
  {
    FindsNothing(w, s, id, timely);
    IsAuthorized(w, Phased(s, id, Resolved(None)), id, timely);
    Rephased(s, id, Resolved(None), Authorized(None));
    MayProceed(w, Phased(s, id, Authorized(None)), id, timely);
    Rephased(s, id, Authorized(None), MayMutate);
  }

  lemma Rephased(s: State, id: nat, p: Phase, q: Phase)
    requires id in s.live
    ensures Phased(Phased(s, id, p), id, q) == Phased(s, id, q)
  {
    assert Phased(Phased(s, id, p), id, q).live == Phased(s, id, q).live;
  }

  // ---------------------------------------------------------------- two rivals

  predicate Signed(w: World, req: Request) {
    RequestDigest(w.hash, w.texts, req.write) == Some(req.digest)
  }

  /** Two signed requests for one account and action under two nonces, with whatever keys they present. */
  predicate Rivals(w: World, a: Request, b: Request) {
    && Signed(w, a) && Signed(w, b) && a.write.nonce != b.write.nonce
    && EqIgnoreCase(a.write.account, b.write.account) && a.write.action == b.write.action
  }

  /** A time more than a challenge's life before both deadlines. */
  function Begin(a: Request, b: Request): (t: int)
    ensures t + CHALLENGE_TTL_MS < a.write.deadlineMs && t + CHALLENGE_TTL_MS < b.write.deadlineMs
  {
    var first := if a.write.deadlineMs <= b.write.deadlineMs then a.write.deadlineMs else b.write.deadlineMs;
    first - CHALLENGE_TTL_MS - 1
  }

  /** The keys their two challenges were issued with. */
  datatype Keys = Keys(a: Option<string>, b: Option<string>)

  predicate IssuedRow(rows: Rows, req: Request, key: Option<string>, at: int) {
    && req.write.nonce in rows && EqIgnoreCase(rows[req.write.nonce].account, req.write.account)
    && rows[req.write.nonce] == NewChallenge(rows[req.write.nonce].account, req.write.action, key, at)
  }

  function Arrivals(a: Request, b: Request): (m: map<nat, Live>) {
    map[0 := Live(a, false, Arrived), 1 := Live(b, false, Arrived), 2 := Live(a, false, Arrived)]
  }

  /** Both challenges are issued, one millisecond apart; both requests, and a retry of the first, have arrived. */
  predicate Ready(s: State, a: Request, b: Request, k: Keys) {
    && s.rows.Keys == {a.write.nonce, b.write.nonce} && a.write.nonce != b.write.nonce
    && IssuedRow(s.rows, a, k.a, Begin(a, b)) && IssuedRow(s.rows, b, k.b, Begin(a, b) + 1)
    && s.live == Arrivals(a, b)
    && s.mutations == []
  }

  lemma IssueOne(w: World, s: State, req: Request, key: Option<string>, at: int) returns (t: State)
    requires Reaches(w, s, true) && req.write.nonce !in s.rows
    ensures Reaches(w, t, true) && req.write.nonce in t.rows
    ensures t.rows == s.rows[req.write.nonce := t.rows[req.write.nonce]]
    ensures IssuedRow(t.rows, req, key, at) && t.live == s.live && t.mutations == s.mutations
  {
    LowerIdempotent(req.write.account);
    ReachesNext(w, s, Issue(req.write.nonce, req.write.account, req.write.action, key, at), true);
    t := Next(w, s, Issue(req.write.nonce, req.write.account, req.write.action, key, at));
  }

  lemma ArriveOne(w: World, s: State, id: nat, req: Request, timely: bool)
    requires Reaches(w, s, timely) && Signed(w, req) && id !in s.live
    ensures Reaches(w, Put(s, id, Live(req, false, Arrived)), timely)
  {
    ReachesNext(w, s, Arrive(id, req), timely);
  }

  lemma IssueBoth(w: World, a: Request, b: Request, k: Keys) returns (s: State)
    requires Rivals(w, a, b)
    ensures Reaches(w, s, true) && s.rows.Keys == {a.write.nonce, b.write.nonce}
    ensures IssuedRow(s.rows, a, k.a, Begin(a, b)) && IssuedRow(s.rows, b, k.b, Begin(a, b) + 1)
    ensures s.live == map[] && s.mutations == []
  {
    ReachesEmpty(w, true);
    s := IssueOne(w, EMPTY, a, k.a, Begin(a, b));
    s := IssueOne(w, s, b, k.b, Begin(a, b) + 1);
  }

  lemma AllArrive(w: World, s: State, a: Request, b: Request)
    requires Reaches(w, s, true) && Signed(w, a) && Signed(w, b) && s.live == map[]
    ensures Reaches(w, s.(live := Arrivals(a, b)), true)
  {
    ArriveOne(w, s, 0, a, true);
    var s1 := Put(s, 0, Live(a, false, Arrived));
    ArriveOne(w, s1, 1, b, true);
    var s2 := Put(s1, 1, Live(b, false, Arrived));
    ArriveOne(w, s2, 2, a, true);
    ArrivalsPut(s, a, b);
  }

  lemma ArrivalsPut(s: State, a: Request, b: Request)
    requires s.live == map[]
    ensures
      var one, other := Live(a, false, Arrived), Live(b, false, Arrived);
      Put(Put(Put(s, 0, one), 1, other), 2, one) == s.(live := Arrivals(a, b))
  {
    var one, other := Live(a, false, Arrived), Live(b, false, Arrived);
    assert Put(Put(Put(s, 0, one), 1, other), 2, one).live == Arrivals(a, b);
  }

  lemma GetReady(w: World, a: Request, b: Request, k: Keys) returns (s: State)
    requires Rivals(w, a, b)
    ensures Reaches(w, s, true) && Ready(s, a, b, k)
  {
    s := IssueBoth(w, a, b, k);
    AllArrive(w, s, a, b);
    s := s.(live := Arrivals(a, b));
  }

  predicate MutatedBy(s: State, i: nat, req: Request) {
    i < |s.mutations| && s.mutations[i].author in s.live && s.live[s.mutations[i].author].req == req
  }

  /** Both requests have mutated, on rows issued with these keys. */
  ghost predicate BothMutated(s: State, a: Request, b: Request, k: Keys) {
    && KeepKeys(s.rows, a, b, k)
    && (exists i :: MutatedBy(s, i, a)) && (exists j :: MutatedBy(s, j, b))
  }

  /** In some run both mutate; if `timely`, in one without late claims. */
  ghost predicate CanBothMutate(w: World, a: Request, b: Request, k: Keys, timely: bool) {
    exists s :: Reaches(w, s, timely) && BothMutated(s, a, b, k)
  }

  // ---------------------------------------------------------------- the runs in which both mutate

  /** The second claim is not stopped by the first. */
  predicate LetsSecond(backend: Backend, b: Request, k: Keys) {
    match backend
    case Memory => k.a.None? || k.a != b.write.idempotencyKey
    case Postgres => k.a.None? || k.a != k.b
  }

  lemma ClaimsInTurn(backend: Backend, rows: Rows, a: Request, b: Request, k: Keys)
    requires rows.Keys == {a.write.nonce, b.write.nonce} && a.write.nonce != b.write.nonce
    requires IssuedRow(rows, a, k.a, Begin(a, b)) && IssuedRow(rows, b, k.b, Begin(a, b) + 1)
    requires LetsSecond(backend, b, k)
    ensures ClaimRow(backend, rows, ClaimArgsOf(a, Begin(a, b) + 2)).1.FreshClaim?
    ensures
      var after := ClaimRow(backend, rows, ClaimArgsOf(a, Begin(a, b) + 2)).0;
      var (last, outcome) := ClaimRow(backend, after, ClaimArgsOf(b, Begin(a, b) + 2));
      && NoResources(after) && outcome.FreshClaim? && NoResources(last) && KeepKeys(last, a, b, k)
  {
  }

  predicate KeepKeys(rows: Rows, a: Request, b: Request, k: Keys) {
    && a.write.nonce in rows && rows[a.write.nonce].idempotencyKey == k.a
    && b.write.nonce in rows && rows[b.write.nonce].idempotencyKey == k.b
  }

  /** Both requests have gone through, on rows that kept their keys. */
  lemma BothThrough(w: World, s: State, a: Request, b: Request, k: Keys, timely: bool)
    requires Reaches(w, s, timely) && 0 in s.live && s.live[0].req == a && 1 in s.live && s.live[1].req == b
    requires |s.mutations| == 2 && s.mutations[0].author == 0 && s.mutations[1].author == 1
    requires KeepKeys(s.rows, a, b, k)
    ensures CanBothMutate(w, a, b, k, timely)
  {
    assert MutatedBy(s, 0, a) && MutatedBy(s, 1, b);
    assert BothMutated(s, a, b, k);
  }

  lemma SecondGoesThrough(w: World, s: State, a: Request, b: Request, k: Keys, nowMs: int, timely: bool)
    requires Reaches(w, s, timely) && 0 in s.live && s.live[0].req == a && nowMs < b.write.deadlineMs
    requires 1 in s.live && s.live[1] == Live(b, false, Arrived) && |s.mutations| == 1 && s.mutations[0].author == 0
    requires
      var (last, outcome) := ClaimRow(w.backend, s.rows, ClaimArgsOf(b, nowMs));
      outcome.FreshClaim? && NoResources(last) && KeepKeys(last, a, b, k)
    ensures CanBothMutate(w, a, b, k, timely)
  {
    FreshGoesThrough(w, s, 1, nowMs, timely);
    BothThrough(w, Through(w, s, 1, nowMs), a, b, k, timely);
  }

  lemma InTurnFrom(w: World, s: State, a: Request, b: Request, k: Keys)
    requires Reaches(w, s, true) && Ready(s, a, b, k) && LetsSecond(w.backend, b, k)
    ensures CanBothMutate(w, a, b, k, true)
  {
    ClaimsInTurn(w.backend, s.rows, a, b, k);
    FreshGoesThrough(w, s, 0, Begin(a, b) + 2, true);
    SecondGoesThrough(w, Through(w, s, 0, Begin(a, b) + 2), a, b, k, Begin(a, b) + 2, true);
  }

  lemma InTurn(w: World, a: Request, b: Request, k: Keys)
    requires Rivals(w, a, b) && LetsSecond(w.backend, b, k)
    ensures CanBothMutate(w, a, b, k, true)
  {
    var s := GetReady(w, a, b, k);
    InTurnFrom(w, s, a, b, k);
  }

  lemma Swapped(w: World, a: Request, b: Request, k: Keys, timely: bool)
    requires CanBothMutate(w, b, a, Keys(k.b, k.a), timely)
    ensures CanBothMutate(w, a, b, k, timely)
  {
    var s :| Reaches(w, s, timely) && BothMutated(s, b, a, Keys(k.b, k.a));
    assert BothMutated(s, a, b, k);
  }

  /** In memory, a late second claim on a's row frees whatever it blocked. */
  lemma LateClaims(rows: Rows, a: Request, b: Request, k: Keys)
    requires rows.Keys == {a.write.nonce, b.write.nonce} && a.write.nonce != b.write.nonce
    requires IssuedRow(rows, a, k.a, Begin(a, b)) && IssuedRow(rows, b, k.b, Begin(a, b) + 1)
    ensures MemoryClaim(rows, ClaimArgsOf(a, Begin(a, b) + 2)).1.FreshClaim?
    ensures
      var after := MemoryClaim(rows, ClaimArgsOf(a, Begin(a, b) + 2)).0;
      var (freed, outcome) := MemoryClaim(after, ClaimArgsOf(a, Begin(a, b) + CHALLENGE_TTL_MS));
      && NoResources(after) && outcome.ClaimExpired?
      && var (last, fin) := MemoryClaim(freed, ClaimArgsOf(b, Begin(a, b) + CHALLENGE_TTL_MS));
         fin.FreshClaim? && NoResources(last) && KeepKeys(last, a, b, k)
  {
  }

  lemma ClaimExpires(w: World, s: State, id: nat, nowMs: int)
    requires Reaches(w, s, false) && Enabled(w, s, Claim(id, nowMs))
    requires ClaimRow(w.backend, s.rows, ClaimArgsOf(s.live[id].req, nowMs)).1.ClaimExpired?
    ensures
      var rows := ClaimRow(w.backend, s.rows, ClaimArgsOf(s.live[id].req, nowMs)).0;
      Reaches(w, Phased(s, id, Rejected).(rows := rows), false)
  {
    ReachesNext(w, s, Claim(id, nowMs), false);
  }

  lemma LateRetryFrom(w: World, s: State, a: Request, b: Request, k: Keys)
    requires Reaches(w, s, false) && Ready(s, a, b, k) && w.backend == Memory
    ensures CanBothMutate(w, a, b, k, false)
  {
    LateClaims(s.rows, a, b, k);
    FreshGoesThrough(w, s, 0, Begin(a, b) + 2, false);
    FreedGoesThrough(w, Through(w, s, 0, Begin(a, b) + 2), a, b, k);
  }

  lemma FreedGoesThrough(w: World, s: State, a: Request, b: Request, k: Keys)
    requires Reaches(w, s, false) && w.backend == Memory && 0 in s.live && s.live[0].req == a
    requires 1 in s.live && s.live[1] == Live(b, false, Arrived) && 2 in s.live && s.live[2] == Live(a, false, Arrived)
    requires |s.mutations| == 1 && s.mutations[0].author == 0
    requires
      var (freed, outcome) := MemoryClaim(s.rows, ClaimArgsOf(a, Begin(a, b) + CHALLENGE_TTL_MS));
      && outcome.ClaimExpired?
      && var (last, fin) := MemoryClaim(freed, ClaimArgsOf(b, Begin(a, b) + CHALLENGE_TTL_MS));
         fin.FreshClaim? && NoResources(last) && KeepKeys(last, a, b, k)
    ensures CanBothMutate(w, a, b, k, false)
  {
    ClaimExpires(w, s, 2, Begin(a, b) + CHALLENGE_TTL_MS);
    var s2 := Phased(s, 2, Rejected).(rows := MemoryClaim(s.rows, ClaimArgsOf(a, Begin(a, b) + CHALLENGE_TTL_MS)).0);
    SecondGoesThrough(w, s2, a, b, k, Begin(a, b) + CHALLENGE_TTL_MS, false);
  }

  lemma AfterLateRetry(w: World, a: Request, b: Request, k: Keys)
    requires Rivals(w, a, b) && w.backend == Memory
    ensures CanBothMutate(w, a, b, k, false)
  {
    var s := GetReady(w, a, b, k);
    LateRetryFrom(w, s, a, b, k);
  }

  // ---------------------------------------------------------------- the runs in which they cannot

  /** With Postgres two rows issued for one key never both mutate. */
  lemma PostgresBlocks(w: World, a: Request, b: Request, k: Keys, s: State, timely: bool)
    requires w.backend == Postgres
    ensures Rivals(w, a, b) && Reaches(w, s, timely) && BothMutated(s, a, b, k) ==> k.a.None? || k.a != k.b
  {
    if Rivals(w, a, b) && Reaches(w, s, timely) && BothMutated(s, a, b, k) {
      var run, labels :| IsRun(w, run, labels) && run[|labels|] == s && (timely ==> OnTime(run, labels));
      RunKeepsInv(w, run, labels, |labels|);
      var i: nat :| MutatedBy(s, i, a);
      var j: nat :| MutatedBy(s, j, b);
      assert MutationOk(s, i) && MutationOk(s, j);
      assert FreshRow(s, s.mutations[i].author) && FreshRow(s, s.mutations[j].author);
      if k.a.Some? && k.a == k.b {
        AtMostOneMutationPerKey(w, run, labels, |labels|, i, j);
      }
    }
  }

  /** Each of two fresh claimants presents the key the other's row was issued with. */
  predicate Crossed(s: State, x: nat, y: nat) {
    && x in s.live && y in s.live && x != y && s.live[x].wasFresh && s.live[y].wasFresh
    && EqIgnoreCase(s.live[x].req.write.account, s.live[y].req.write.account)
    && s.live[x].req.write.action == s.live[y].req.write.action
    && Nonce(s.live[x]) in s.rows && Nonce(s.live[y]) in s.rows
    && s.live[x].req.write.idempotencyKey.Some? && s.live[y].req.write.idempotencyKey.Some?
    && s.rows[Nonce(s.live[x])].idempotencyKey == s.live[y].req.write.idempotencyKey
    && s.rows[Nonce(s.live[y])].idempotencyKey == s.live[x].req.write.idempotencyKey
  }

  ghost predicate NoneCrossed(s: State) {
    forall x, y :: !Crossed(s, x, y)
  }

  predicate StillConsumed(rows: Rows) {
    forall n :: n in rows && rows[n].requestDigest.Some? ==> rows[n].status == Consumed
  }

  /** No step but a fresh claim makes a request fresh. */
  lemma OnlyFreshClaimsFresh(w: World, s: State, l: Label, x: nat)
    requires Inv(s) && Enabled(w, s, l) && x in Next(w, s, l).live && Next(w, s, l).live[x].wasFresh
    ensures x in s.live && Next(w, s, l).live[x].req == s.live[x].req
    ensures s.live[x].wasFresh ||
      (l.Claim? && l.id == x && ClaimRow(w.backend, s.rows, ClaimArgsOf(s.live[x].req, l.nowMs)).1.FreshClaim?)
  {
  }

  lemma CrossedBefore(w: World, s: State, l: Label, x: nat, y: nat)
    requires Inv(s) && Enabled(w, s, l) && Crossed(Next(w, s, l), x, y) && s.live[x].wasFresh && s.live[y].wasFresh
    requires x in s.live && y in s.live
    ensures Crossed(s, x, y)
  {
    OnlyFreshClaimsFresh(w, s, l, x);
    OnlyFreshClaimsFresh(w, s, l, y);
    assert FreshRow(s, x) && FreshRow(s, y);
    StepEvolves(w, s, l);
  }

  /** In memory, a claim that would cross a consumed row is a key conflict. */
  lemma CrossingConflicts(w: World, s: State, l: Label, x: nat, y: nat)
    requires w.backend == Memory && Inv(s) && StillConsumed(s.rows) && l.Claim? && l.id == y && Enabled(w, s, l)
    requires x in s.live && x != y && s.live[x].wasFresh
    requires ClaimRow(w.backend, s.rows, ClaimArgsOf(s.live[y].req, l.nowMs)).1.FreshClaim?
    ensures !Crossed(Next(w, s, l), x, y) && !Crossed(Next(w, s, l), y, x)
  {
    assert FreshRow(s, x);
    StepEvolves(w, s, l);
  }

  lemma StepNotCrossed(w: World, s: State, l: Label, x: nat, y: nat)
    requires w.backend == Memory && Inv(s) && Enabled(w, s, l) && NoneCrossed(s) && StillConsumed(s.rows)
    ensures !Crossed(Next(w, s, l), x, y)
  {
    if Crossed(Next(w, s, l), x, y) {
      OnlyFreshClaimsFresh(w, s, l, x);
      OnlyFreshClaimsFresh(w, s, l, y);
      if s.live[x].wasFresh && s.live[y].wasFresh {
        CrossedBefore(w, s, l, x, y);
      } else if s.live[x].wasFresh {
        CrossingConflicts(w, s, l, x, y);
      } else {
        CrossingConflicts(w, s, l, y, x);
      }
    }
  }

  lemma {:induction false} OnTimeNeverCrosses(w: World, run: seq<State>, labels: seq<Label>, i: nat)
    requires w.backend == Memory && IsRun(w, run, labels) && OnTime(run, labels) && i < |run|
    ensures NoneCrossed(run[i]) && StillConsumed(run[i].rows)
  {
    if i > 0 {
      var s, l := run[i - 1], labels[i - 1];
      OnTimeNeverCrosses(w, run, labels, i - 1);
      RunKeepsInv(w, run, labels, i - 1);
      forall x, y ensures !Crossed(run[i], x, y) { StepNotCrossed(w, s, l, x, y); }
    }
  }

  lemma MutatorsNotCrossed(s: State, a: Request, b: Request, k: Keys, i: nat, j: nat)
    requires MutationsOk(s) && FreshRows(s) && NoneCrossed(s) && MutatedBy(s, i, a) && MutatedBy(s, j, b)
    requires KeepKeys(s.rows, a, b, k) && a.write.nonce != b.write.nonce
    requires EqIgnoreCase(a.write.account, b.write.account) && a.write.action == b.write.action
    ensures LetsSecond(Memory, b, k) || LetsSecond(Memory, a, Keys(k.b, k.a))
  {
    assert MutationOk(s, i) && MutationOk(s, j);
    assert !Crossed(s, s.mutations[i].author, s.mutations[j].author);
  }

  /** In memory without late claims, rows issued with each other's presented keys never both mutate. */
  lemma MemoryBlocks(w: World, a: Request, b: Request, k: Keys, s: State)
    requires w.backend == Memory
    ensures Rivals(w, a, b) && Reaches(w, s, true) && BothMutated(s, a, b, k) ==>
      LetsSecond(Memory, b, k) || LetsSecond(Memory, a, Keys(k.b, k.a))
  {
    if Rivals(w, a, b) && Reaches(w, s, true) && BothMutated(s, a, b, k) {
      var run, labels :| IsRun(w, run, labels) && run[|labels|] == s && OnTime(run, labels);
      RunKeepsInv(w, run, labels, |labels|);
      OnTimeNeverCrosses(w, run, labels, |labels|);
      var i: nat :| MutatedBy(s, i, a);
      var j: nat :| MutatedBy(s, j, b);
      MutatorsNotCrossed(s, a, b, k, i, j);
    }
  }

  // ---------------------------------------------------------------- the exact conditions

  /**
   * Any two requests of one account and action, whatever they present: with Postgres both can mutate
   * exactly unless their challenges were issued with one key; in memory both always can.
   */
  lemma BothMutateIff(w: World, a: Request, b: Request, k: Keys)
    requires Rivals(w, a, b)
    ensures CanBothMutate(w, a, b, k, false) <==> w.backend == Memory || k.a.None? || k.a != k.b
  {
    if w.backend == Memory {
      AfterLateRetry(w, a, b, k);
    } else if k.a.None? || k.a != k.b {
      InTurn(w, a, b, k);
      var s :| Reaches(w, s, true) && BothMutated(s, a, b, k);
    }
    if CanBothMutate(w, a, b, k, false) && w.backend == Postgres {
      var s :| Reaches(w, s, false) && BothMutated(s, a, b, k);
      PostgresBlocks(w, a, b, k, s, false);
    }
  }

  /**
   * The same without claims on expired consumed rows: in memory both can mutate exactly unless each
   * presents the key the other's challenge was issued with.
   */
  lemma BothMutateOnTimeIff(w: World, a: Request, b: Request, k: Keys)
    requires Rivals(w, a, b)
    ensures CanBothMutate(w, a, b, k, true) <==>
      match w.backend
      case Postgres => k.a.None? || k.a != k.b
      case Memory => k.a.None? || k.b.None? || k.a != b.write.idempotencyKey || k.b != a.write.idempotencyKey
  {
    if LetsSecond(w.backend, b, k) {
      InTurn(w, a, b, k);
    } else if LetsSecond(w.backend, a, Keys(k.b, k.a)) {
      InTurn(w, b, a, Keys(k.b, k.a));
      Swapped(w, a, b, k, true);
    }
    if CanBothMutate(w, a, b, k, true) {
      var s :| Reaches(w, s, true) && BothMutated(s, a, b, k);
      if w.backend == Postgres {
        PostgresBlocks(w, a, b, k, s, true);
      } else {
        MemoryBlocks(w, a, b, k, s);
      }
    }
  }

  // ---------------------------------------------------------------- deadlines as the route hands them out

  /** Every request signed a deadline no later than its challenge's expiry, as the challenge route proposes it. */
  predicate SignedWithin(s: State) {
    forall id :: id in s.live && Nonce(s.live[id]) in s.rows ==>
      s.live[id].req.write.deadlineMs <= s.rows[Nonce(s.live[id])].expiresAtMs
  }

  lemma NotLateWithin(s: State, l: Label, t: State)
    requires l.Claim? && l.id in s.live && l.nowMs < s.live[l.id].req.write.deadlineMs && RowsEvolve(s.rows, t.rows)
    requires SignedWithin(t) && l.id in t.live && t.live[l.id].req == s.live[l.id].req
    ensures !LateStep(s, l)
  {
    var n := Nonce(s.live[l.id]);
    assert n in s.rows ==> Evolves(s.rows[n], t.rows[n]);
  }

  /** Then no claim comes late: whoever signs the proposed deadlines has only runs without late claims. */
  lemma SignedWithinIsOnTime(w: World, run: seq<State>, labels: seq<Label>)
    requires IsRun(w, run, labels) && SignedWithin(run[|labels|])
    ensures OnTime(run, labels)
  {
    forall i | 0 <= i < |labels| && i < |run|
      ensures !LateStep(run[i], labels[i])
    {
      if labels[i].Claim? {
        RequestsStay(w, run, labels, i, |labels|, labels[i].id);
        RowsOnlyAdvance(w, run, labels, i, |labels|);
        NotLateWithin(run[i], labels[i], run[|labels|]);
      }
    }
  }

  /**
   * So in such a run two requests of one account and action both mutate only if, with Postgres, their
   * challenges were not issued with one key, and in memory, not each presents the key of the other's.
   */
  lemma BothMutateWithin(w: World, run: seq<State>, labels: seq<Label>, a: Request, b: Request, k: Keys)
    requires IsRun(w, run, labels) && SignedWithin(run[|labels|])
    ensures Rivals(w, a, b) && BothMutated(run[|labels|], a, b, k) ==>
      match w.backend
      case Postgres => k.a.None? || k.a != k.b
      case Memory => k.a.None? || k.b.None? || k.a != b.write.idempotencyKey || k.b != a.write.idempotencyKey
  {
    if Rivals(w, a, b) && BothMutated(run[|labels|], a, b, k) {
      SignedWithinIsOnTime(w, run, labels);
      assert Reaches(w, run[|labels|], true);
      assert CanBothMutate(w, a, b, k, true);
      BothMutateOnTimeIff(w, a, b, k);
    }
  }
}
