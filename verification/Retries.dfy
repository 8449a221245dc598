/**
 * What comes back to a request, over every run: when its claim is fresh, when an earlier resource is
 * handed out again, and where it ends after that.
 */
module Retries {
  import opened Text
  import opened Words
  import opened Actions
  import opened WriteDigest
  import opened ChallengeStore
  import opened WriteProtocol
  import opened ExactlyOnce

  // ---------------------------------------------------------------- rows as issued

  /** Every row is for this chain and lives five minutes. */
  predicate IssuedOk(rows: Rows) {
    forall n :: n in rows ==> rows[n].chainId == CHAIN_ID && rows[n].expiresAtMs == rows[n].issuedAtMs + 300_000
  }

  /** A claim touches neither a row's resource nor what was fixed when it was issued. */
  lemma ClaimLeaves(backend: Backend, rows: Rows, c: ClaimArgs)
    requires RowsOk(rows)
    ensures
      var after := ClaimRow(backend, rows, c).0;
      && after.Keys == rows.Keys && (IssuedOk(rows) ==> IssuedOk(after))
      && forall n :: n in rows ==> after[n].resourceId == rows[n].resourceId
  {
    ClaimMeaning(backend, rows, c);
    ClaimEvolves(backend, rows, c);
  }

  lemma StepKeepsIssued(w: World, s: State, l: Label)
    requires RowsOk(s.rows) && Enabled(w, s, l) && IssuedOk(s.rows)
    ensures IssuedOk(Next(w, s, l).rows)
  {
    if l.Claim? {
      ClaimLeaves(w.backend, s.rows, ClaimArgsOf(s.live[l.id].req, l.nowMs));
    }
  }

  lemma {:induction false} RunKeepsIssued(w: World, run: seq<State>, labels: seq<Label>, i: nat)
    requires IsRun(w, run, labels) && i < |run|
    ensures IssuedOk(run[i].rows)
  {
    if i > 0 {
      RunKeepsIssued(w, run, labels, i - 1);
      RunKeepsInv(w, run, labels, i - 1);
      StepKeepsIssued(w, run[i - 1], labels[i - 1]);
    }
  }

  /** What issuing stores: the account as it came, or in lower case with Postgres, and nothing yet consumed. */
  lemma IssueStores(w: World, s: State, l: Label)
    requires l.Issue? && Enabled(w, s, l)
    ensures Next(w, s, l) == s.(rows := s.rows[l.nonce := ChallengeRecord(
      if w.backend == Postgres then Lower(l.account) else l.account, l.action, CHAIN_ID, l.nowMs, l.nowMs + 300_000,
      Issued, None, l.key, None, None)])
  {
  }

  // ---------------------------------------------------------------- what a claim yields

  /** The row was issued to the request's account, in any case, for its action, less than five minutes ago. */
  predicate Answers(row: ChallengeRecord, req: Request, nowMs: int) {
    && Lower(row.account) == Lower(req.write.account) && row.action == req.write.action
    && nowMs < row.issuedAtMs + 300_000
  }

  /** Another consumed row was issued with the key for the request's account and action. */
  predicate HeldElsewhere(rows: Rows, req: Request, key: Option<string>) {
    key.Some? && exists n :: n in rows && HolderOf(n, rows[n], req, key)
  }

  predicate HolderOf(n: Word, row: ChallengeRecord, req: Request, key: Option<string>) {
    && n != req.write.nonce && row.status == Consumed && row.idempotencyKey == key
    && Lower(row.account) == Lower(req.write.account) && row.action == req.write.action
  }

  lemma HeldIsTaken(rows: Rows, req: Request, key: string)
    ensures HeldElsewhere(rows, req, Some(key)) <==>
            KeyTaken(rows, req.write.account, req.write.action, key, req.write.nonce)
  {
    if HeldElsewhere(rows, req, Some(key)) {
      var n :| n in rows && HolderOf(n, rows[n], req, Some(key));
      assert OwnsKey(rows[n], req.write.account, req.write.action, key);
    }
    if KeyTaken(rows, req.write.account, req.write.action, key, req.write.nonce) {
      var n :| n in rows && n != req.write.nonce && rows[n].status == Consumed
            && OwnsKey(rows[n], req.write.account, req.write.action, key);
      assert HolderOf(n, rows[n], req, Some(key));
    }
  }

  /** The in-memory store looks at the presented key, Postgres at the key the row was issued with. */
  function CheckedKey(backend: Backend, row: ChallengeRecord, req: Request): (key: Option<string>) {
    match backend
    case Memory => req.write.idempotencyKey
    case Postgres => if row.status == Issued then row.idempotencyKey else None
  }

  /** What the claim of a request leaves it with. */
  function Yield(backend: Backend, rows: Rows, req: Request, nowMs: int): (o: Option<(bool, Option<string>)>) {
    var n := req.write.nonce;
    if n !in rows || !Answers(rows[n], req, nowMs) || HeldElsewhere(rows, req, CheckedKey(backend, rows[n], req))
    then None
    else match rows[n].status
      case Issued => Some((true, None))
      case Consumed => if rows[n].requestDigest == Some(req.digest) then Some((false, rows[n].resourceId)) else None
      case Expired => None
  }

  lemma ClaimYields(backend: Backend, rows: Rows, req: Request, nowMs: int)
    requires RowsOk(rows) && IssuedOk(rows)
    ensures
      var outcome := ClaimRow(backend, rows, ClaimArgsOf(req, nowMs)).1;
      match Yield(backend, rows, req, nowMs)
      case Some((true, _)) => outcome == FreshClaim
      case Some((false, resource)) => outcome == IdempotentReplay(resource)
      case None => !outcome.FreshClaim? && !outcome.IdempotentReplay?
  {
    var c, n := ClaimArgsOf(req, nowMs), req.write.nonce;
    ClaimMeaning(backend, rows, c);
    if n in rows {
      var key := CheckedKey(backend, rows[n], req);
      if key.Some? {
        HeldIsTaken(rows, req, key.value);
      }
    }
  }

  /**
   * In every run, a request's claim is fresh exactly if its row is live, untouched and its own, with no other
   * consumed row under the key; it comes back with the stored resource exactly if that row was consumed by the
   * same digest; otherwise the request is rejected.
   */
  lemma ClaimsExactly(w: World, run: seq<State>, labels: seq<Label>, i: nat)
    requires IsRun(w, run, labels) && i < |labels| && labels[i].Claim?
    ensures
      var id := labels[i].id;
      var (before, after) := (run[i].live[id], run[i + 1].live[id]);
      && after.req == before.req && labels[i].nowMs < before.req.write.deadlineMs
      && match Yield(w.backend, run[i].rows, before.req, labels[i].nowMs)
         case Some((first, resource)) => after.wasFresh == first && after.phase == Claimed(resource)
         case None => !after.wasFresh && after.phase == Rejected
  {
    var id := labels[i].id;
    RunKeepsInv(w, run, labels, i);
    RunKeepsIssued(w, run, labels, i);
    assert PhaseOk(run[i].live[id]);
    ClaimYields(w.backend, run[i].rows, run[i].live[id].req, labels[i].nowMs);
  }

  // ---------------------------------------------------------------- an attached resource stays

  /** The request has attached its resource, and its row has it. */
  predicate Stored(s: State, id: nat, resource: string) {
    && id in s.live && s.live[id].wasFresh && s.live[id].phase == Answered(resource, true)
    && Nonce(s.live[id]) in s.rows && s.rows[Nonce(s.live[id])].resourceId == Some(resource)
  }

  lemma StepKeepsStored(w: World, s: State, l: Label, id: nat, resource: string)
    requires RowsOk(s.rows) && FreshUnique(s) && PhasesOk(s) && Enabled(w, s, l) && Stored(s, id, resource)
    ensures Stored(Next(w, s, l), id, resource)
  {
    match l
    case Claim(b, nowMs) => ClaimLeaves(w.backend, s.rows, ClaimArgsOf(s.live[b].req, nowMs));
    case Attach(b, _) => assert PhaseOk(s.live[b]);
    case _ =>
  }

  /** A row has a resource only once its fresh claimant has answered with it. */
  predicate ResourceFrom(s: State, id: nat) {
    (id in s.live && s.live[id].wasFresh && Nonce(s.live[id]) in s.rows && s.rows[Nonce(s.live[id])].resourceId.Some?)
    ==> s.live[id].phase.Answered?
  }

  lemma StepResourceFrom(w: World, s: State, l: Label, id: nat)
    requires RowsOk(s.rows) && FreshRows(s) && FreshUnique(s) && PhasesOk(s) && Enabled(w, s, l) && ResourceFrom(s, id)
    ensures ResourceFrom(Next(w, s, l), id)
  {
    match l
    case Claim(b, nowMs) =>
      ClaimLeaves(w.backend, s.rows, ClaimArgsOf(s.live[b].req, nowMs));
      ClaimMeaning(w.backend, s.rows, ClaimArgsOf(s.live[b].req, nowMs));
    case Attach(b, _) => assert PhaseOk(s.live[b]);
    case Issue(_, _, _, _, _) => assert id in s.live ==> FreshRow(s, id);
    case _ =>
  }

  lemma {:induction false} RunResourceFrom(w: World, run: seq<State>, labels: seq<Label>, i: nat, id: nat)
    requires IsRun(w, run, labels) && i < |run|
    ensures ResourceFrom(run[i], id)
  {
    if i > 0 {
      RunResourceFrom(w, run, labels, i - 1, id);
      RunKeepsInv(w, run, labels, i - 1);
      StepResourceFrom(w, run[i - 1], labels[i - 1], id);
    }
  }

  /** In Postgres a row that was claimed stays consumed. */
  lemma PostgresStaysConsumed(w: World, run: seq<State>, labels: seq<Label>, i: nat, n: Word)
    requires IsRun(w, run, labels) && i < |run| && w.backend == Postgres
    requires n in run[i].rows && run[i].rows[n].requestDigest.Some?
    ensures run[i].rows[n].status == Consumed
  {
    RunKeepsKeys(w, run, labels, i);
  }

  lemma AttachStores(w: World, run: seq<State>, labels: seq<Label>, i: nat)
    requires IsRun(w, run, labels) && i < |labels| && labels[i].Attach? && labels[i].stored
    ensures Stored(run[i + 1], labels[i].id, run[i].live[labels[i].id].phase.created)
  {
    var id := labels[i].id;
    RunKeepsInv(w, run, labels, i);
    assert PhaseOk(run[i].live[id]) && FreshRow(run[i], id);
    RunResourceFrom(w, run, labels, i, id);
    if w.backend == Postgres {
      PostgresStaysConsumed(w, run, labels, i, Nonce(run[i].live[id]));
    }
  }

  /** A resource that was attached is on its row for good, in either store. */
  lemma {:induction false} AttachedForGood(w: World, run: seq<State>, labels: seq<Label>, i: nat, j: nat)
    requires IsRun(w, run, labels) && i < j <= |labels| && labels[i].Attach? && labels[i].stored
    ensures Stored(run[j], labels[i].id, run[i].live[labels[i].id].phase.created)
    decreases j
  {
    if j == i + 1 {
      AttachStores(w, run, labels, i);
    } else {
      AttachedForGood(w, run, labels, i, j - 1);
      RunKeepsInv(w, run, labels, j - 1);
      StepKeepsStored(w, run[j - 1], labels[j - 1], labels[i].id, run[i].live[labels[i].id].phase.created);
    }
  }

  // ---------------------------------------------------------------- an attached resource comes back

  /** Another request with the same nonce and digest, from the account and action of the row. */
  predicate Retry(s: State, id: nat, b: nat) {
    && id in s.live && b in s.live && s.live[b].req.digest == s.live[id].req.digest
    && Nonce(s.live[b]) == Nonce(s.live[id]) && Nonce(s.live[id]) in s.rows
    && Matches(s.rows[Nonce(s.live[id])], s.live[b])
  }

  /**
   * Once a resource is attached, a later claim by the same signed write is handed that resource exactly if the
   * row is less than five minutes old and not marked expired and, in memory, no other consumed row has the
   * presented key. Otherwise the request is rejected.
   */
  lemma RetryClaims(w: World, run: seq<State>, labels: seq<Label>, i: nat, j: nat)
    requires IsRun(w, run, labels) && i < j < |labels| && labels[i].Attach? && labels[i].stored
    requires labels[j].Claim? && Retry(run[j], labels[i].id, labels[j].id)
    ensures
      var b := labels[j].id;
      var row := run[j].rows[Nonce(run[j].live[b])];
      && !run[j + 1].live[b].wasFresh
      && run[j + 1].live[b].phase ==
         if && labels[j].nowMs < row.issuedAtMs + 300_000 && row.status == Consumed
            && (w.backend == Memory ==>
                !HeldElsewhere(run[j].rows, run[j].live[b].req, run[j].live[b].req.write.idempotencyKey))
         then Claimed(Some(run[i].live[labels[i].id].phase.created)) else Rejected
  {
    AttachedForGood(w, run, labels, i, j);
    RunKeepsInv(w, run, labels, j);
    assert FreshRow(run[j], labels[i].id);
    ClaimsExactly(w, run, labels, j);
  }

  // ---------------------------------------------------------------- where a request ends

  predicate Moves(l: Label, id: nat) {
    !l.Issue? && l.id == id
  }

  /** How many of the steps from `start` up to `end` the request itself takes. */
  function Taken(labels: seq<Label>, id: nat, start: nat, end: nat): (n: nat)
    requires start <= end <= |labels|
  {
    if start == end then 0
    else Taken(labels, id, start, end - 1) + if Moves(labels[end - 1], id) then 1 else 0
  }

  /** The phases of a request that was handed a resource. */
  function Course(resource: string): (c: seq<Phase>) {
    [Claimed(Some(resource)), Resolved(Some(resource)), Authorized(Some(resource)), Answered(resource, false)]
  }

  /** The step that takes such a request from one phase to the next. */
  function Move(id: nat, resource: string, k: nat): (l: Label) {
    if k == 0 then Resolve(id, Some(resource)) else if k == 1 then CheckAmbiguity(id) else Proceed(id)
  }

  predicate OnCourse(s: State, id: nat, resource: string, k: nat) {
    k < 4 && id in s.live && !s.live[id].wasFresh && s.live[id].phase == Course(resource)[k]
  }

  lemma StepKeepsCourse(w: World, s: State, l: Label, id: nat, resource: string, k: nat)
    requires Enabled(w, s, l) && OnCourse(s, id, resource, k)
    ensures Moves(l, id) ==> l == Move(id, resource, k) && OnCourse(Next(w, s, l), id, resource, k + 1)
    ensures !Moves(l, id) ==> OnCourse(Next(w, s, l), id, resource, k)
  {
  }

  /** The next step of such a request can happen. */
  lemma CourseGoesOn(w: World, s: State, id: nat, resource: string, k: nat)
    requires OnCourse(s, id, resource, k) && k < 3
    ensures Enabled(w, s, Move(id, resource, k))
  {
  }

  /**
   * Whatever the others do, a request that was handed a resource takes at most three more steps, none of which
   * refuses it, and after the third it has answered with that resource.
   */
  lemma {:induction false} HandedIsAnswered(w: World, run: seq<State>, labels: seq<Label>, j: nat, t: nat, b: nat,
                                            resource: string)
    requires IsRun(w, run, labels) && j <= t <= |labels| && OnCourse(run[j], b, resource, 0)
    ensures OnCourse(run[t], b, resource, Taken(labels, b, j, t))
    decreases t
  {
    if j < t {
      HandedIsAnswered(w, run, labels, j, t - 1, b, resource);
      StepKeepsCourse(w, run[t - 1], labels[t - 1], b, resource, Taken(labels, b, j, t - 1));
    }
  }

  // ---------------------------------------------------------------- the version-2 ledger

  /** A fresh version-2 request that passed the ledger is in it. */
  predicate Entered(s: State, id: nat) {
    id in s.live && s.live[id].wasFresh && s.live[id].req.subaccount.Some?
    && (s.live[id].phase.MayMutate? || HasMutated(s.live[id].phase)) ==>
      (Lower(s.live[id].req.write.account), s.live[id].req.subaccount.value, s.live[id].req.write.action,
       s.live[id].req.write.nonce) in s.used
  }

  lemma StepEnters(w: World, s: State, l: Label, id: nat)
    requires Enabled(w, s, l) && Entered(s, id) && (id in s.live ==> PhaseOk(s.live[id]))
    ensures Entered(Next(w, s, l), id)
  {
  }

  /** In every run, no version-2 request mutates without its ledger entry. */
  lemma {:induction false} MutationsAreEntered(w: World, run: seq<State>, labels: seq<Label>, i: nat, id: nat)
    requires IsRun(w, run, labels) && i < |run|
    ensures Entered(run[i], id)
  {
    if i > 0 {
      MutationsAreEntered(w, run, labels, i - 1, id);
      RunKeepsInv(w, run, labels, i - 1);
      StepEnters(w, run[i - 1], labels[i - 1], id);
    }
  }

  // ---------------------------------------------------------------- rows marked expired

  /** The row is not marked expired before its five minutes are over. */
  predicate Unmarked(rows: Rows, n: Word, nowMs: int) {
    n in rows && nowMs < rows[n].issuedAtMs + 300_000 ==> rows[n].status != Expired
  }

  lemma StepUnmarked(w: World, s: State, l: Label, n: Word, nowMs: int)
    requires RowsOk(s.rows) && IssuedOk(s.rows) && Enabled(w, s, l) && (l.Claim? ==> l.nowMs <= nowMs)
    requires Unmarked(s.rows, n, nowMs)
    ensures Unmarked(Next(w, s, l).rows, n, nowMs)
  {
  }

  /** A row is marked expired only by a claim five minutes or more after it was issued. */
  lemma {:induction false} RunUnmarked(w: World, run: seq<State>, labels: seq<Label>, i: nat, n: Word, nowMs: int)
    requires IsRun(w, run, labels) && i < |run|
    requires forall k :: 0 <= k < i && labels[k].Claim? ==> labels[k].nowMs <= nowMs
    ensures Unmarked(run[i].rows, n, nowMs)
  {
    if i > 0 {
      RunUnmarked(w, run, labels, i - 1, n, nowMs);
      RunKeepsInv(w, run, labels, i - 1);
      RunKeepsIssued(w, run, labels, i - 1);
      StepUnmarked(w, run[i - 1], labels[i - 1], n, nowMs);
    }
  }

  /** No claim before the j-th step reads a later clock than the claim there. */
  predicate ClocksForward(labels: seq<Label>, j: nat) {
    j < |labels| && labels[j].Claim? &&
    forall k :: 0 <= k < j && labels[k].Claim? ==> labels[k].nowMs <= labels[j].nowMs
  }

  /** The retry comes within five minutes of the challenge, and memory finds its key on no other consumed row. */
  predicate Timely(backend: Backend, rows: Rows, req: Request, nowMs: int) {
    && req.write.nonce in rows && nowMs < rows[req.write.nonce].issuedAtMs + 300_000
    && (backend == Memory ==> !HeldElsewhere(rows, req, req.write.idempotencyKey))
  }

  /** A resource is attached at step i, and at step j the same signed write claims again in time. */
  ghost predicate RetriedInTime(w: World, run: seq<State>, labels: seq<Label>, i: nat, j: nat) {
    && IsRun(w, run, labels) && i < j < |labels| && labels[i].Attach? && labels[i].stored
    && ClocksForward(labels, j) && Retry(run[j], labels[i].id, labels[j].id)
    && Timely(w.backend, run[j].rows, run[j].live[labels[j].id].req, labels[j].nowMs)
  }

  lemma RetryIsHanded(w: World, run: seq<State>, labels: seq<Label>, i: nat, j: nat)
    requires RetriedInTime(w, run, labels, i, j)
    ensures OnCourse(run[j + 1], labels[j].id, run[i].live[labels[i].id].phase.created, 0)
  {
    RetryClaims(w, run, labels, i, j);
    RunUnmarked(w, run, labels, j, Nonce(run[j].live[labels[j].id]), labels[j].nowMs);
    AttachedForGood(w, run, labels, i, j);
    RetryLeftIssued(w, run, labels, j, labels[i].id);
  }

  /** A fresh claimant's row is past Issued. */
  lemma RetryLeftIssued(w: World, run: seq<State>, labels: seq<Label>, j: nat, id: nat)
    requires IsRun(w, run, labels) && j < |run| && id in run[j].live && run[j].live[id].wasFresh
    ensures Nonce(run[j].live[id]) in run[j].rows && run[j].rows[Nonce(run[j].live[id])].status != Issued
  {
    RunKeepsInv(w, run, labels, j);
    assert FreshRow(run[j], id);
  }

  /**
   * With clocks that do not run back: once a resource is attached, a timely retry of the same signed write ends
   * with that resource, whatever the others do.
   */
  lemma {:induction false} RetryIsAnswered(w: World, run: seq<State>, labels: seq<Label>, i: nat, j: nat, t: nat)
    requires RetriedInTime(w, run, labels, i, j) && j < t <= |labels|
    ensures
      var (b, resource) := (labels[j].id, run[i].live[labels[i].id].phase.created);
      OnCourse(run[t], b, resource, Taken(labels, b, j + 1, t))
  {
    RetryIsHanded(w, run, labels, i, j);
    HandedIsAnswered(w, run, labels, j + 1, t, labels[j].id, run[i].live[labels[i].id].phase.created);
  }

  // ---------------------------------------------------------------- by key, and with nothing to hand out

  /** The request presents the key its account's row was issued with, for the same action. */
  predicate SameKey(row: ChallengeRecord, req: Request) {
    && req.write.idempotencyKey.Some? && row.idempotencyKey == req.write.idempotencyKey
    && Lower(row.account) == Lower(req.write.account) && row.action == req.write.action
  }

  /**
   * An attached resource is also found by its key: with Postgres, and in memory when every claim presents the key
   * its row was issued with, any request with that key that looks up while the row is consumed finds it.
   */
  lemma AttachedIsFound(w: World, run: seq<State>, labels: seq<Label>, i: nat, j: nat)
    requires IsRun(w, run, labels) && PresentsIssued(w, run, labels) && i < j < |labels|
    requires labels[i].Attach? && labels[i].stored && labels[j].Resolve?
    requires run[j].live[labels[j].id].phase == Claimed(None)
    requires Nonce(run[i].live[labels[i].id]) in run[j].rows
    requires
      var row := run[j].rows[Nonce(run[i].live[labels[i].id])];
      row.status == Consumed && SameKey(row, run[j].live[labels[j].id].req)
    ensures run[j + 1].live[labels[j].id].phase == Resolved(Some(run[i].live[labels[i].id].phase.created))
  {
    var (rows, req) := (run[j].rows, run[j].live[labels[j].id].req.write);
    var n, resource := Nonce(run[i].live[labels[i].id]), run[i].live[labels[i].id].phase.created;
    AttachedForGood(w, run, labels, i, j);
    RequestsStay(w, run, labels, i, j, labels[i].id);
    assert LookupHit(rows[n], req.account, req.action, req.idempotencyKey.value);
    ReachableLookup(w, run, labels, j, req.account, req.action, req.idempotencyKey.value, labels[j].found,
                    Some(resource));
  }

  /** Where a lookup leads: to an answer if it found something, else on to the mutation if the claim was fresh. */
  predicate Leads(s: State, id: nat, first: bool, found: Option<string>) {
    && id in s.live && s.live[id].wasFresh == first
    && match s.live[id].phase
       case Resolved(resource) => resource == found
       case Authorized(resource) => resource == found && (first || found.Some?)
       case Rejected => !first && found.None?
       case Answered(answer, own) => if own then first && found.None? else found == Some(answer)
       case MayMutate => first && found.None?
       case Mutated(_) => first && found.None?
       case _ => false
  }

  /** The ledger would let the request pass. */
  predicate LedgerOpen(s: State, id: nat) {
    id in s.live && s.live[id].phase.Authorized? && s.live[id].wasFresh && s.live[id].req.subaccount.Some? ==>
      LedgerKeyOf(s.live[id].req) !in s.used
  }

  lemma LedgerIsOpen(s: State, id: nat)
    requires Inv(s)
    ensures LedgerOpen(s, id)
  {
  }

  lemma StepLeads(w: World, s: State, l: Label, id: nat, first: bool, found: Option<string>)
    requires Enabled(w, s, l) && Leads(s, id, first, found) && LedgerOpen(s, id)
    ensures Leads(Next(w, s, l), id, first, found)
  {
  }

  /**
   * After its lookup a request is rejected exactly if it found nothing and its claim was a replay, answers with
   * what it found, and goes on to mutate exactly if it found nothing and its claim was fresh.
   */
  lemma {:induction false} LookupDecides(w: World, run: seq<State>, labels: seq<Label>, i: nat, t: nat)
    requires IsRun(w, run, labels) && i < t <= |labels| && labels[i].Resolve?
    ensures Leads(run[t], labels[i].id, run[i].live[labels[i].id].wasFresh, labels[i].found)
    decreases t
  {
    if i + 1 < t {
      LookupDecides(w, run, labels, i, t - 1);
      RunKeepsInv(w, run, labels, t - 1);
      LedgerIsOpen(run[t - 1], labels[i].id);
      StepLeads(w, run[t - 1], labels[t - 1], labels[i].id, run[i].live[labels[i].id].wasFresh, labels[i].found);
    }
  }
}
