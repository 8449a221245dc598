/** What holds over every run of the write protocol, in any interleaving, and what does not. */
module ExactlyOnce {
  import opened Text
  import opened Words
  import opened Actions
  import opened WriteDigest
  import opened ChallengeStore
  import opened WriteProtocol

  /** A run from the empty store: every label can happen in its state and leads to the next. */
  ghost predicate IsRun(w: World, run: seq<State>, labels: seq<Label>) {
    && |run| == |labels| + 1 && run[0] == EMPTY
    && forall i :: 0 <= i < |labels| ==> Enabled(w, run[i], labels[i]) && run[i + 1] == Next(w, run[i], labels[i])
  }

  /** A step more. */
  lemma RunExtends(w: World, run: seq<State>, labels: seq<Label>, l: Label)
    requires IsRun(w, run, labels) && Enabled(w, run[|labels|], l)
    ensures IsRun(w, run + [Next(w, run[|labels|], l)], labels + [l])
  {
    var longer, more := run + [Next(w, run[|labels|], l)], labels + [l];
    forall i | 0 <= i < |more|
      ensures Enabled(w, longer[i], more[i]) && longer[i + 1] == Next(w, longer[i], more[i])
    {
      assert longer[i] == run[i];
      assert i < |labels| ==> more[i] == labels[i] && longer[i + 1] == run[i + 1];
    }
  }

  lemma {:induction false} RunKeepsInv(w: World, run: seq<State>, labels: seq<Label>, i: nat)
    requires IsRun(w, run, labels) && i < |run|
    ensures Inv(run[i])
  {
    if i > 0 {
      RunKeepsInv(w, run, labels, i - 1);
      StepKeeps(w, run[i - 1], labels[i - 1]);
    }
  }

  // ---------------------------------------------------------------- at most one mutation per nonce

  /** Over every interleaving, each nonce causes at most one mutation. */
  lemma AtMostOneMutationPerNonce(w: World, run: seq<State>, labels: seq<Label>, t: nat, i: nat, j: nat)
    requires IsRun(w, run, labels) && t < |run|
    requires i < |run[t].mutations| && j < |run[t].mutations|
    requires run[t].mutations[i].nonce == run[t].mutations[j].nonce
    ensures i == j
  {
    RunKeepsInv(w, run, labels, t);
    assert MutationOk(run[t], i) && MutationOk(run[t], j);
  }

  /** At most one request ever gets a nonce freshly. */
  lemma FreshAtMostOnce(w: World, run: seq<State>, labels: seq<Label>, t: nat, a: nat, b: nat)
    requires IsRun(w, run, labels) && t < |run| && a in run[t].live && b in run[t].live
    requires run[t].live[a].wasFresh && run[t].live[b].wasFresh && Nonce(run[t].live[a]) == Nonce(run[t].live[b])
    ensures a == b
  {
    RunKeepsInv(w, run, labels, t);
  }

  /** A reported replay has its fresh claimant: one request, with the same nonce and the same digest. */
  lemma ReplayHasFreshClaimant(w: World, run: seq<State>, labels: seq<Label>, t: nat, b: nat) returns (a: nat)
    requires IsRun(w, run, labels) && t < |run|
    requires b in run[t].live && run[t].live[b].phase.Claimed? && !run[t].live[b].wasFresh
    ensures a in run[t].live && run[t].live[a].wasFresh && Nonce(run[t].live[a]) == Nonce(run[t].live[b])
    ensures run[t].live[a].req.digest == run[t].live[b].req.digest
  {
    RunKeepsInv(w, run, labels, t);
    ReplayDigest(w, run, labels, t, b);
    var n := Nonce(run[t].live[b]);
    assert OwnedBySome(run[t], n);
    a :| OwnedBy(run[t], n, a);
  }

  /** A request waiting with a replay matches the digest on its row. */
  predicate ReplayMatches(s: State, b: nat) {
    b in s.live && s.live[b].phase.Claimed? && !s.live[b].wasFresh ==>
      Nonce(s.live[b]) in s.rows && s.rows[Nonce(s.live[b])].requestDigest == Some(s.live[b].req.digest)
  }

  /** A request reaches Claimed only by its own claim. */
  lemma OnlyClaimClaims(w: World, s: State, l: Label, b: nat)
    requires Enabled(w, s, l) && !(l.Claim? && l.id == b)
    requires b in Next(w, s, l).live && Next(w, s, l).live[b].phase.Claimed?
    ensures b in s.live && s.live[b] == Next(w, s, l).live[b]
  {
  }

  lemma StepReplay(w: World, s: State, l: Label, b: nat)
    requires Inv(s) && Enabled(w, s, l) && ReplayMatches(s, b)
    ensures ReplayMatches(Next(w, s, l), b)
  {
    if l.Claim? && l.id == b {
      ClaimMeaning(w.backend, s.rows, ClaimArgsOf(s.live[b].req, l.nowMs));
    } else {
      StepEvolves(w, s, l);
      var t := Next(w, s, l);
      if b in t.live && t.live[b].phase.Claimed? {
        OnlyClaimClaims(w, s, l, b);
      }
    }
  }

  lemma {:induction false} ReplayDigest(w: World, run: seq<State>, labels: seq<Label>, t: nat, b: nat)
    requires IsRun(w, run, labels) && t < |run|
    ensures ReplayMatches(run[t], b)
  {
    if t > 0 {
      ReplayDigest(w, run, labels, t - 1, b);
      RunKeepsInv(w, run, labels, t - 1);
      StepReplay(w, run[t - 1], labels[t - 1], b);
    }
  }

  // ---------------------------------------------------------------- rows over time

  /** Rows differ at most in an attached resource or a newly issued row. */
  ghost predicate OnlyAttached(before: Rows, after: Rows) {
    forall n :: (n in before ==> n in after) && (n in after ==>
      if n in before then after[n] == before[n].(resourceId := after[n].resourceId)
      else after[n].status == Issued && after[n].requestDigest.None?)
  }

  lemma OtherStepsAttach(w: World, s: State, l: Label)
    requires Enabled(w, s, l) && !l.Claim?
    ensures OnlyAttached(s.rows, Next(w, s, l).rows)
  {
  }

  lemma StepEvolves(w: World, s: State, l: Label)
    requires Inv(s) && Enabled(w, s, l)
    ensures RowsEvolve(s.rows, Next(w, s, l).rows)
  {
    if l.Claim? {
      ClaimEvolves(w.backend, s.rows, ClaimArgsOf(s.live[l.id].req, l.nowMs));
    } else {
      OtherStepsAttach(w, s, l);
    }
  }

  /** Between any two points of a run a row's status only advances and its digest and consumption
      time, once written, stay. */
  lemma {:induction false} RowsOnlyAdvance(w: World, run: seq<State>, labels: seq<Label>, i: nat, j: nat)
    requires IsRun(w, run, labels) && i <= j < |run|
    ensures RowsEvolve(run[i].rows, run[j].rows)
  {
    if i < j {
      RowsOnlyAdvance(w, run, labels, i, j - 1);
      RunKeepsInv(w, run, labels, j - 1);
      StepEvolves(w, run[j - 1], labels[j - 1]);
      EvolveThrough(run[i].rows, run[j - 1].rows, run[j].rows);
    }
  }

  lemma EvolveThrough(a: Rows, b: Rows, c: Rows)
    requires RowsEvolve(a, b) && RowsEvolve(b, c)
    ensures RowsEvolve(a, c)
  {
  }

  // ---------------------------------------------------------------- answers are genuine

  predicate Authentic(w: World, s: State) {
    forall id :: id in s.live ==> RequestDigest(w.hash, w.texts, s.live[id].req.write) == Some(s.live[id].req.digest)
  }

  lemma SameRequests(w: World, s: State, l: Label)
    requires Enabled(w, s, l)
    ensures forall id :: id in Next(w, s, l).live ==>
      || (id in s.live && Next(w, s, l).live[id].req == s.live[id].req)
      || (l.Arrive? && Next(w, s, l).live[id].req == l.req)
  {
  }

  lemma RequestStays(w: World, s: State, l: Label, id: nat)
    requires Enabled(w, s, l) && id in s.live
    ensures id in Next(w, s, l).live && Next(w, s, l).live[id].req == s.live[id].req
  {
  }

  lemma {:induction false} RequestsStay(w: World, run: seq<State>, labels: seq<Label>, i: nat, j: nat, id: nat)
    requires IsRun(w, run, labels) && i <= j < |run| && id in run[i].live
    ensures id in run[j].live && run[j].live[id].req == run[i].live[id].req
  {
    if i < j {
      RequestsStay(w, run, labels, i, j - 1, id);
      RequestStays(w, run[j - 1], labels[j - 1], id);
    }
  }

  lemma {:induction false} RunAuthentic(w: World, run: seq<State>, labels: seq<Label>, i: nat)
    requires IsRun(w, run, labels) && i < |run|
    ensures Authentic(w, run[i])
  {
    if i > 0 {
      RunAuthentic(w, run, labels, i - 1);
      SameRequests(w, run[i - 1], labels[i - 1]);
    }
  }

  /** Why an answer may be given: the request's own mutation, or one made under its nonce for the same
      signed write (short of a hash collision), or one made under a nonce issued for its key. */
  ghost predicate Justified(w: World, s: State, id: nat, k: nat)
    requires id in s.live && s.live[id].phase.Answered? && k < |s.mutations|
  {
    var m, l := s.mutations[k], s.live[id];
    && m.resource == l.phase.answer && m.author in s.live
    && (if l.phase.own then m.author == id
        else
          || SameKeyMutation(s, k, l.req)
          || (&& m.nonce == Nonce(l)
              && var first := s.live[m.author].req.write;
                 (SameWrite(first, l.req.write)
                  || Collides(w.hash, Preimages(w.hash, w.texts, first) + Preimages(w.hash, w.texts, l.req.write)))))
  }

  lemma GenuineIsJustified(w: World, s: State, id: nat, k: nat)
    requires Authentic(w, s) && id in s.live && s.live[id].phase.Answered? && !s.live[id].phase.own
    requires Created(s, k, s.live[id].req, s.live[id].phase.answer)
    ensures Justified(w, s, id, k)
  {
    if !SameKeyMutation(s, k, s.live[id].req) {
      RequestDigestBinds(w.hash, w.texts, s.live[s.mutations[k].author].req.write, s.live[id].req.write);
    }
  }

  lemma OwnAnswer(w: World, s: State, id: nat) returns (k: nat)
    requires MutationsOk(s) && id in s.live && s.live[id].phase.Answered? && s.live[id].phase.own
    ensures k < |s.mutations| && Justified(w, s, id, k)
  {
    k :| 0 <= k < |s.mutations| && s.mutations[k].author == id;
    assert MutationOk(s, k);
  }

  lemma HeldAnswer(s: State, id: nat) returns (k: nat)
    requires HeldOk(s) && id in s.live && s.live[id].phase.Answered? && !s.live[id].phase.own
    ensures Created(s, k, s.live[id].req, s.live[id].phase.answer)
  {
    k :| Created(s, k, s.live[id].req, s.live[id].phase.answer);
  }

  /** Every answer in every run returns a resource that some mutation created for that request. */
  lemma AnswersAreGenuine(w: World, run: seq<State>, labels: seq<Label>, t: nat, id: nat) returns (k: nat)
    requires IsRun(w, run, labels) && t < |run|
    requires id in run[t].live && run[t].live[id].phase.Answered?
    ensures k < |run[t].mutations| && Justified(w, run[t], id, k)
  {
    RunKeepsInv(w, run, labels, t);
    if run[t].live[id].phase.own {
      k := OwnAnswer(w, run[t], id);
    } else {
      k := HeldAnswer(run[t], id);
      RunAuthentic(w, run, labels, t);
      GenuineIsJustified(w, run[t], id, k);
    }
  }

  /** The version-2 ledger check after a fresh claim never fires, in any run. */
  lemma LedgerCheckNeverFires(w: World, run: seq<State>, labels: seq<Label>, t: nat)
    requires IsRun(w, run, labels) && t < |labels| && labels[t].Proceed?
    ensures !run[t + 1].live[labels[t].id].phase.Rejected?
  {
    var s, id := run[t], labels[t].id;
    RunKeepsInv(w, run, labels, t);
    if s.live[id].req.subaccount.Some? && s.live[id].wasFresh {
      LedgerNeverRefuses(s, id);
    }
  }

  // ---------------------------------------------------------------- one consumed row per key, in every reachable store

  /** Postgres, or the claim presents the key its row was issued with. */
  predicate PresentsIssuedStep(w: World, s: State, l: Label) {
    w.backend == Postgres || (l.Claim? && l.id in s.live && Nonce(s.live[l.id]) in s.rows ==>
      s.rows[Nonce(s.live[l.id])].idempotencyKey == s.live[l.id].req.write.idempotencyKey)
  }

  predicate PresentsIssued(w: World, run: seq<State>, labels: seq<Label>) {
    forall i :: 0 <= i < |labels| && i < |run| ==> PresentsIssuedStep(w, run[i], labels[i])
  }

  lemma StepKeepsUnique(w: World, s: State, l: Label)
    requires Enabled(w, s, l) && UniqueConsumed(s.rows) && PresentsIssuedStep(w, s, l)
    ensures UniqueConsumed(Next(w, s, l).rows)
  {
    if l.Claim? {
      var c := ClaimArgsOf(s.live[l.id].req, l.nowMs);
      if w.backend == Postgres {
        PostgresClaimKeepsUnique(s.rows, c);
      } else {
        MatchingClaimKeepsUnique(Memory, s.rows, c);
      }
    } else {
      OtherStepsAttach(w, s, l);
    }
  }

  /**
   * With Postgres, and in memory when every claim presents the key its row was issued with, every
   * reachable store has at most one consumed row per account, action and key. Late claims are allowed.
   */
  lemma {:induction false} ReachableUnique(w: World, run: seq<State>, labels: seq<Label>, i: nat)
    requires IsRun(w, run, labels) && PresentsIssued(w, run, labels) && i < |run|
    ensures UniqueConsumed(run[i].rows)
  {
    if i > 0 {
      ReachableUnique(w, run, labels, i - 1);
      StepKeepsUnique(w, run[i - 1], labels[i - 1]);
    }
  }

  /** So in every reachable store the unordered search has one possible answer. */
  lemma ReachableLookup(w: World, run: seq<State>, labels: seq<Label>, i: nat,
                        account: string, action: Action, key: string, a: Option<string>, b: Option<string>)
    requires IsRun(w, run, labels) && PresentsIssued(w, run, labels) && i < |run|
    requires LookupAnswers(run[i].rows, account, action, key, a) && LookupAnswers(run[i].rows, account, action, key, b)
    ensures a == b
  {
    ReachableUnique(w, run, labels, i);
    LookupDeterministic(run[i].rows, account, action, key, a, b);
  }

  /**
   * And from every reachable store, a request that claims freshly with its issued key and looks up at once
   * finds nothing.
   */
  lemma ReachableFreshFindsNothing(w: World, run: seq<State>, labels: seq<Label>, i: nat, id: nat, nowMs: int,
                                   found: Option<string>)
    requires IsRun(w, run, labels) && PresentsIssued(w, run, labels) && i < |run|
    requires Enabled(w, run[i], Claim(id, nowMs)) && Nonce(run[i].live[id]) in run[i].rows
    requires run[i].rows[Nonce(run[i].live[id])].idempotencyKey == run[i].live[id].req.write.idempotencyKey
    requires Next(w, run[i], Claim(id, nowMs)).live[id].wasFresh
    requires Enabled(w, Next(w, run[i], Claim(id, nowMs)), Resolve(id, found))
    ensures found == None
  {
    var s := run[i];
    RunKeepsInv(w, run, labels, i);
    ReachableUnique(w, run, labels, i);
    assert PhaseOk(s.live[id]);
    if s.live[id].req.write.idempotencyKey.Some? {
      FreshFindsNothing(w.backend, s.rows, ClaimArgsOf(s.live[id].req, nowMs), found);
    }
  }

  // ---------------------------------------------------------------- at most one mutation per key

  /** Consumed rows stay consumed, one per key. */
  predicate KeysOk(rows: Rows) {
    UniqueConsumed(rows) && forall n :: n in rows && rows[n].requestDigest.Some? ==> rows[n].status == Consumed
  }

  /** A consumed row is claimed again after its expiry, by a request that no other key owner stops. */
  predicate Late(rows: Rows, c: ClaimArgs) {
    && c.nonce in rows && Bound(rows[c.nonce], c) && rows[c.nonce].status == Consumed
    && rows[c.nonce].expiresAtMs <= c.nowMs
    && !(c.key.Some? && KeyTaken(rows, c.account, c.action, c.key.value, c.nonce))
  }

  /** An issued row whose own key is taken is claimed by a request that does not present a taken key. */
  predicate Unpresented(rows: Rows, c: ClaimArgs) {
    && c.nonce in rows && Bound(rows[c.nonce], c) && rows[c.nonce].status == Issued
    && c.nowMs < rows[c.nonce].expiresAtMs
    && !(c.key.Some? && KeyTaken(rows, c.account, c.action, c.key.value, c.nonce))
    && rows[c.nonce].idempotencyKey.Some?
    && KeyTaken(rows, c.account, c.action, rows[c.nonce].idempotencyKey.value, c.nonce)
  }

  /** The in-memory store keeps one consumed row per key exactly when the claim is neither of these. */
  lemma MemoryClaimKeepsKeysIff(rows: Rows, c: ClaimArgs)
    requires RowsOk(rows) && KeysOk(rows)
    ensures KeysOk(MemoryClaim(rows, c).0) <==> !Late(rows, c) && !Unpresented(rows, c)
  {
    MemoryClaimKeepsUniqueIff(rows, c);
    var after := MemoryClaim(rows, c).0;
    if Late(rows, c) {
      assert after[c.nonce].requestDigest.Some? && after[c.nonce].status == Expired;
    }
  }

  /** Postgres, or an in-memory store none of whose claims is late or leaves its row's key unpresented. */
  predicate KeySafeStep(w: World, s: State, l: Label) {
    w.backend == Postgres || (l.Claim? && l.id in s.live ==>
      var c := ClaimArgsOf(s.live[l.id].req, l.nowMs); !Late(s.rows, c) && !Unpresented(s.rows, c))
  }

  predicate KeySafe(w: World, run: seq<State>, labels: seq<Label>) {
    forall i :: 0 <= i < |labels| && i < |run| ==> KeySafeStep(w, run[i], labels[i])
  }

  lemma AttachedKeepsKeys(before: Rows, after: Rows)
    requires KeysOk(before) && OnlyAttached(before, after)
    ensures KeysOk(after)
  {
  }

  lemma StepKeepsKeys(w: World, s: State, l: Label)
    requires Inv(s) && Enabled(w, s, l) && KeysOk(s.rows) && KeySafeStep(w, s, l)
    ensures KeysOk(Next(w, s, l).rows)
  {
    if l.Claim? {
      var c := ClaimArgsOf(s.live[l.id].req, l.nowMs);
      if w.backend == Postgres {
        PostgresClaimKeepsUnique(s.rows, c);
      } else {
        MemoryClaimKeepsKeysIff(s.rows, c);
      }
    } else {
      OtherStepsAttach(w, s, l);
      AttachedKeepsKeys(s.rows, Next(w, s, l).rows);
    }
  }

  lemma {:induction false} RunKeepsKeys(w: World, run: seq<State>, labels: seq<Label>, i: nat)
    requires IsRun(w, run, labels) && KeySafe(w, run, labels) && i < |run|
    ensures KeysOk(run[i].rows)
  {
    if i > 0 {
      RunKeepsKeys(w, run, labels, i - 1);
      RunKeepsInv(w, run, labels, i - 1);
      StepKeepsKeys(w, run[i - 1], labels[i - 1]);
    }
  }

  /**
   * With Postgres, over every run: at most one mutation per (account, action, key the challenge was
   * issued with). With the in-memory store, over every run none of whose claims is late or leaves
   * its row's key unpresented.
   */
  lemma AtMostOneMutationPerKey(w: World, run: seq<State>, labels: seq<Label>, t: nat, i: nat, j: nat)
    requires IsRun(w, run, labels) && KeySafe(w, run, labels) && t < |run|
    requires i < |run[t].mutations| && j < |run[t].mutations|
    requires run[t].mutations[i].nonce in run[t].rows && run[t].mutations[j].nonce in run[t].rows
    requires SameOwner(run[t].rows[run[t].mutations[i].nonce], run[t].rows[run[t].mutations[j].nonce])
    ensures i == j
  {
    var s := run[t];
    RunKeepsInv(w, run, labels, t);
    RunKeepsKeys(w, run, labels, t);
    assert MutationOk(s, i) && MutationOk(s, j);
    assert FreshRow(s, s.mutations[i].author) && FreshRow(s, s.mutations[j].author);
    AtMostOneMutationPerNonce(w, run, labels, t, i, j);
  }

  /** Every mutation's nonce has a row, so the statement above is about every mutation. */
  lemma MutationsHaveRows(w: World, run: seq<State>, labels: seq<Label>, t: nat, i: nat)
    requires IsRun(w, run, labels) && t < |run| && i < |run[t].mutations|
    ensures run[t].mutations[i].nonce in run[t].rows
  {
    RunKeepsInv(w, run, labels, t);
    assert MutationOk(run[t], i) && FreshRow(run[t], run[t].mutations[i].author);
  }

  /** The same for requests that present the key their challenge was issued with. */
  lemma AtMostOneMutationPerPresentedKey(w: World, run: seq<State>, labels: seq<Label>, t: nat, i: nat, j: nat,
                                         a: Request, b: Request)
    requires IsRun(w, run, labels) && KeySafe(w, run, labels) && t < |run|
    requires i < |run[t].mutations| && j < |run[t].mutations|
    requires run[t].mutations[i].author in run[t].live && run[t].live[run[t].mutations[i].author].req == a
    requires run[t].mutations[j].author in run[t].live && run[t].live[run[t].mutations[j].author].req == b
    requires EqIgnoreCase(a.write.account, b.write.account) && a.write.action == b.write.action
    requires a.write.idempotencyKey == b.write.idempotencyKey && a.write.idempotencyKey.Some?
    requires a.write.nonce in run[t].rows && run[t].rows[a.write.nonce].idempotencyKey == a.write.idempotencyKey
    requires b.write.nonce in run[t].rows && run[t].rows[b.write.nonce].idempotencyKey == b.write.idempotencyKey
    ensures i == j
  {
    var s := run[t];
    RunKeepsInv(w, run, labels, t);
    assert MutationOk(s, i) && MutationOk(s, j);
    assert FreshRow(s, s.mutations[i].author) && FreshRow(s, s.mutations[j].author);
    AtMostOneMutationPerKey(w, run, labels, t, i, j);
  }
}
