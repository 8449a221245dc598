/**
 * How many challenges of one account and action can be outstanding. The challenge route counts them,
 * and issues another only below 32; nothing locks the store in between.
 */
module ChallengeCap {
  import opened Text
  import opened Words
  import opened Actions
  import opened WriteDigest
  import opened ChallengeStore
  import opened WriteProtocol
  import opened ExactlyOnce

  /** The outstanding challenges a route sees for its own request. */
  function Seen(s: State, l: Label): (n: nat)
    requires l.Issue?
  {
    |Outstanding(s.rows, l.account, l.action, l.nowMs)|
  }

  /** Every challenge is issued by a route that counted fewer than 32 at some earlier or the same point. */
  ghost predicate IsRouteRun(w: World, run: seq<State>, labels: seq<Label>, counted: seq<nat>) {
    && IsRun(w, run, labels) && |counted| == |labels|
    && forall i :: 0 <= i < |labels| && labels[i].Issue? ==>
         counted[i] <= i && Seen(run[counted[i]], labels[i]) < MAX_OUTSTANDING
  }

  // ---------------------------------------------------------------- an upper bound

  /** The challenges for an account and action that a step issues. */
  function Adds(l: Label, account: string, action: Action): (s: set<Word>) {
    if l.Issue? && EqIgnoreCase(l.account, account) && l.action == action then {l.nonce} else {}
  }

  /** How many a stretch of labels issues. */
  function IssuedFor(labels: seq<Label>, i: nat, j: nat, account: string, action: Action): (n: nat)
    requires i <= j <= |labels|
    decreases j
  {
    if i == j then 0
    else IssuedFor(labels, i, j - 1, account, action) + |Adds(labels[j - 1], account, action)|
  }

  /** One step adds at most its own challenge to those outstanding. */
  lemma StepOutstanding(w: World, s: State, l: Label, account: string, action: Action, nowMs: int)
    requires Inv(s) && Enabled(w, s, l)
    ensures Outstanding(Next(w, s, l).rows, account, action, nowMs) <=
            Outstanding(s.rows, account, action, nowMs) + Adds(l, account, action)
  {
    StepEvolves(w, s, l);
    if l.Issue? {
      LowerIdempotent(l.account);
    }
  }

  lemma SubsetOfSum(a: set<Word>, b: set<Word>, c: set<Word>)
    requires a <= b + c
    ensures |a| <= |b| + |c|
  {
    assert b + c == a + ((b + c) - a) && b + c == b + (c - b) && c == (c - b) + (c * b);
  }

  lemma RunStepOutstanding(w: World, run: seq<State>, labels: seq<Label>, i: nat, account: string, action: Action,
                           nowMs: int)
    requires IsRun(w, run, labels) && i < |labels|
    ensures |Outstanding(run[i + 1].rows, account, action, nowMs)| <=
            |Outstanding(run[i].rows, account, action, nowMs)| + |Adds(labels[i], account, action)|
  {
    RunKeepsInv(w, run, labels, i);
    StepOutstanding(w, run[i], labels[i], account, action, nowMs);
    SubsetOfSum(Outstanding(run[i + 1].rows, account, action, nowMs), Outstanding(run[i].rows, account, action, nowMs),
                Adds(labels[i], account, action));
  }

  /** The outstanding challenges along a run. */
  ghost function Sizes(run: seq<State>, account: string, action: Action, nowMs: int): (r: seq<nat>) {
    seq(|run|, i requires 0 <= i < |run| => |Outstanding(run[i].rows, account, action, nowMs)|)
  }

  lemma {:induction false} SizesGrow(sizes: seq<nat>, labels: seq<Label>, i: nat, j: nat, account: string,
                                     action: Action)
    requires i <= j < |sizes| == |labels| + 1
    requires forall k :: 0 <= k < |labels| ==> sizes[k + 1] <= sizes[k] + |Adds(labels[k], account, action)|
    ensures sizes[j] <= sizes[i] + IssuedFor(labels, i, j, account, action)
    decreases j
  {
    if i < j {
      SizesGrow(sizes, labels, i, j - 1, account, action);
      assert sizes[(j - 1) + 1] <= sizes[j - 1] + |Adds(labels[j - 1], account, action)|;
    }
  }

  lemma OutstandingGrows(w: World, run: seq<State>, labels: seq<Label>, i: nat, j: nat, account: string,
                         action: Action, nowMs: int)
    requires IsRun(w, run, labels) && i <= j < |run|
    ensures |Outstanding(run[j].rows, account, action, nowMs)| <=
            |Outstanding(run[i].rows, account, action, nowMs)| + IssuedFor(labels, i, j, account, action)
  {
    var sizes := Sizes(run, account, action, nowMs);
    forall k | 0 <= k < |labels|
      ensures sizes[k + 1] <= sizes[k] + |Adds(labels[k], account, action)|
    {
      RunStepOutstanding(w, run, labels, k, account, action, nowMs);
    }
    SizesGrow(sizes, labels, i, j, account, action);
  }

  /**
   * The challenge route counts first and issues later. Whatever comes between, its own challenge leaves
   * at most 32 outstanding plus the challenges for that account and action issued between its two steps.
   */
  lemma RacingCap(w: World, run: seq<State>, labels: seq<Label>, counted: seq<nat>, issued: nat)
    requires IsRouteRun(w, run, labels, counted) && issued < |labels| && labels[issued].Issue?
    ensures
      var l := labels[issued];
      Seen(run[issued + 1], l) <= MAX_OUTSTANDING + IssuedFor(labels, counted[issued], issued, l.account, l.action)
  {
    var l := labels[issued];
    OutstandingGrows(w, run, labels, counted[issued], issued + 1, l.account, l.action, l.nowMs);
  }

  // ---------------------------------------------------------------- exactly when the cap holds

  lemma IssueAdds(w: World, s: State, l: Label)
    requires l.Issue? && Enabled(w, s, l)
    ensures Seen(Next(w, s, l), l) == Seen(s, l) + 1
  {
    LowerIdempotent(l.account);
    var before := Outstanding(s.rows, l.account, l.action, l.nowMs);
    assert Outstanding(Next(w, s, l).rows, l.account, l.action, l.nowMs) == before + {l.nonce};
  }

  /** In every run, an issued challenge leaves at most 32 outstanding exactly when fewer than 32 were at that moment. */
  lemma CapHoldsIff(w: World, run: seq<State>, labels: seq<Label>, issued: nat)
    requires IsRun(w, run, labels) && issued < |labels| && labels[issued].Issue?
    ensures Seen(run[issued + 1], labels[issued]) <= MAX_OUTSTANDING <==>
            Seen(run[issued], labels[issued]) < MAX_OUTSTANDING
  {
    IssueAdds(w, run[issued], labels[issued]);
  }

  /** So routes between whose count and issue nothing of their account and action is issued never pass the cap. */
  lemma UndisturbedKeepsCap(w: World, run: seq<State>, labels: seq<Label>, counted: seq<nat>, issued: nat)
    requires IsRouteRun(w, run, labels, counted) && issued < |labels| && labels[issued].Issue?
    requires IssuedFor(labels, counted[issued], issued, labels[issued].account, labels[issued].action) == 0
    ensures Seen(run[issued + 1], labels[issued]) <= MAX_OUTSTANDING
  {
    RacingCap(w, run, labels, counted, issued);
  }

  // ---------------------------------------------------------------- the bound is reached

  predicate Distinct(nonces: seq<Word>) {
    forall i, j :: 0 <= i < j < |nonces| ==> nonces[i] != nonces[j]
  }

  /** One challenge after another for one account and action, at one time. */
  function Issues(nonces: seq<Word>, one: Label): (labels: seq<Label>)
    requires one.Issue?
    ensures |labels| == |nonces|
  {
    seq(|nonces|, i requires 0 <= i < |nonces| => one.(nonce := nonces[i]))
  }

  /** After k issues k challenges are outstanding. */
  ghost predicate Climbs(run: seq<State>, one: Label)
    requires one.Issue?
  {
    forall k :: 0 <= k < |run| ==> Seen(run[k], one) == k
  }

  lemma IssueOneMore(w: World, run: seq<State>, labels: seq<Label>, one: Label, nonce: Word)
    returns (longer: seq<State>)
    requires IsRun(w, run, labels) && one.Issue? && Climbs(run, one) && nonce !in run[|labels|].rows
    ensures IsRun(w, longer, labels + [one.(nonce := nonce)]) && Climbs(longer, one)
    ensures longer[|labels| + 1].rows.Keys == run[|labels|].rows.Keys + {nonce}
  {
    var l := one.(nonce := nonce);
    RunExtends(w, run, labels, l);
    IssueAdds(w, run[|labels|], l);
    longer := run + [Next(w, run[|labels|], l)];
  }

  function Elements(nonces: seq<Word>): (r: set<Word>) {
    set n | n in nonces
  }

  /** The last nonce is new, and its issue comes last. */
  lemma LastIssue(nonces: seq<Word>, one: Label)
    requires one.Issue? && Distinct(nonces) && nonces != []
    ensures
      var before, last := nonces[..|nonces| - 1], nonces[|nonces| - 1];
      && Distinct(before) && last !in Elements(before) && Elements(nonces) == Elements(before) + {last}
      && Issues(nonces, one) == Issues(before, one) + [one.(nonce := last)]
  {
    var before, last := nonces[..|nonces| - 1], nonces[|nonces| - 1];
    assert nonces == before + [last];
  }

  lemma {:induction false} IssueAll(w: World, nonces: seq<Word>, one: Label) returns (run: seq<State>)
    requires one.Issue? && Distinct(nonces)
    ensures IsRun(w, run, Issues(nonces, one)) && Climbs(run, one)
    ensures run[|nonces|].rows.Keys == Elements(nonces)
  {
    if nonces == [] {
      run := [EMPTY];
      assert Issues(nonces, one) == [];
    } else {
      var before, last := nonces[..|nonces| - 1], nonces[|nonces| - 1];
      LastIssue(nonces, one);
      run := IssueAll(w, before, one);
      run := IssueOneMore(w, run, Issues(before, one), one, last);
    }
  }

  lemma {:induction false} AllIssue(nonces: seq<Word>, one: Label, i: nat, j: nat)
    requires one.Issue? && i <= j <= |nonces|
    ensures IssuedFor(Issues(nonces, one), i, j, one.account, one.action) == j - i
    decreases j
  {
    if i < j {
      AllIssue(nonces, one, i, j - 1);
    }
  }

  /** Where each route counts: the first 31 at their issue, all others at the 31st. */
  function CountEarly(n: nat): (counted: seq<nat>) {
    seq(n, i => if i < MAX_OUTSTANDING - 1 then i else MAX_OUTSTANDING - 1)
  }

  lemma EarlyCounts(w: World, run: seq<State>, nonces: seq<Word>, one: Label)
    requires one.Issue? && IsRun(w, run, Issues(nonces, one)) && Climbs(run, one)
    ensures IsRouteRun(w, run, Issues(nonces, one), CountEarly(|nonces|))
  {
    var labels, counted := Issues(nonces, one), CountEarly(|nonces|);
    forall i | 0 <= i < |labels| && labels[i].Issue?
      ensures counted[i] <= i && Seen(run[counted[i]], labels[i]) < MAX_OUTSTANDING
    {
      assert Seen(run[counted[i]], one) == counted[i];
    }
  }

  /**
   * The bound is reached, at any height: for every account, action, key and clock, either store, and every
   * 32 or more distinct nonces, the routes can count and issue so that all their challenges are outstanding.
   */
  lemma RacingCapTight(w: World, nonces: seq<Word>, one: Label) returns (run: seq<State>)
    requires one.Issue? && Distinct(nonces) && |nonces| >= MAX_OUTSTANDING
    ensures
      var labels, counted, last := Issues(nonces, one), CountEarly(|nonces|), |nonces| - 1;
      && IsRouteRun(w, run, labels, counted) && Seen(run[last + 1], one) == |nonces|
      && Seen(run[last + 1], one) == MAX_OUTSTANDING + IssuedFor(labels, counted[last], last, one.account, one.action)
  {
    run := IssueAll(w, nonces, one);
    EarlyCounts(w, run, nonces, one);
    AllIssue(nonces, one, MAX_OUTSTANDING - 1, |nonces| - 1);
    assert Seen(run[|nonces|], one) == |nonces|;
  }
}

