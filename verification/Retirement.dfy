/**
 * Cosigning against retirement. The cosign route reads the intent's status, reads the stored signatures,
 * verifies, stores, and finally advances a status it saw as pending, each on its own; the operator's
 * retirement abandons the intent in between. An abandoned intent is meant to stay abandoned.
 */
module Retirement {
  import opened Text
  import opened Words
  import opened WriteDigest
  import opened TradeDigest
  import opened Cosign

  /** A cosign request on its way, with the status it read. */
  datatype Flight =
    | Started(a: Attempt, seen: IntentStatus)
    | Loaded(a: Attempt, seen: IntentStatus, prior: Stored)
    | Verified(seen: IntentStatus)

  datatype State = State(status: IntentStatus, stored: Stored, flights: map<nat, Flight>)

  datatype Move =
    | Start(id: nat, a: Attempt)
    | Load(id: nat)
    | Sign(id: nat)
    | Advance(id: nat)
    | Retire

  /** `is_retire_eligible`. */
  predicate RetireEligible(s: IntentStatus) {
    s == Pending || s == DryRun || s == CalldataReady || s == SimulationOk || s == SimulationFailed
  }

  function Next(x: Setting, s: State, m: Move): (t: State) {
    match m
    case Start(id, a) =>
      if id in s.flights || !Cosignable(s.status) then s else s.(flights := s.flights[id := Started(a, s.status)])
    case Load(id) =>
      if id !in s.flights || !s.flights[id].Started? then s
      else s.(flights := s.flights[id := Loaded(s.flights[id].a, s.flights[id].seen, s.stored)])
    case Sign(id) =>
      if id !in s.flights || !s.flights[id].Loaded? then s
      else
        var f := s.flights[id];
        (match Route(x.At(f.a.active), f.a.req, f.prior, f.a.nowSec)
         case Err(_) => s.(flights := s.flights - {id})
         case Ok(b) => s.(stored := StoreBundle(b), flights := s.flights[id := Verified(f.seen)]))
    case Advance(id) =>
      if id !in s.flights || !s.flights[id].Verified? then s
      else
        s.(status := if s.flights[id].seen == Pending then CalldataReady else s.status, flights := s.flights - {id})
    case Retire => if RetireEligible(s.status) then s.(status := Abandoned) else s
  }

  function Run(x: Setting, s: State, moves: seq<Move>): (t: State)
    decreases |moves|
  {
    if moves == [] then s else Run(x, Next(x, s, moves[0]), moves[1..])
  }

  // ---------------------------------------------------------------- what retirement spares

  /** Past the point where an intent may be retired. */
  predicate IsSettled(s: IntentStatus) {
    s == IntentStatus.Prepared || s == Submitted || s == Confirmed || s == Failed
  }

  /** Retirement abandons exactly the intents that are not settled. */
  lemma RetireExactly(x: Setting, s: State)
    ensures Next(x, s, Retire) == s.(status := if IsSettled(s.status) then s.status else Abandoned)
  {
  }

  predicate NoneSawPending(s: State) {
    forall id :: id in s.flights ==> s.flights[id].seen != Pending
  }

  /** A settled intent stays as it is through any cosigning and retiring, unless a request saw it pending. */
  lemma {:induction false} SettledStays(x: Setting, s: State, moves: seq<Move>)
    requires IsSettled(s.status) && NoneSawPending(s)
    ensures Run(x, s, moves).status == s.status
    decreases |moves|
  {
    if moves != [] {
      var t := Next(x, s, moves[0]);
      assert NoneSawPending(t);
      SettledStays(x, t, moves[1..]);
    }
  }

  // ---------------------------------------------------------------- what is stored stays sound

  ghost predicate Consistent(x: Setting, s: State) {
    && StoredOk(x, s.stored)
    && forall id :: id in s.flights && s.flights[id].Loaded? ==> StoredOk(x, s.flights[id].prior)
  }

  /** What a request's verification stores, over what it loaded. */
  function Stores(x: Setting, a: Attempt, prior: Stored): (r: Option<Bundle>) {
    match Route(x, a.req, prior, a.nowSec)
    case Err(_) => None
    case Ok(b) => Some(b)
  }

  lemma ActiveIsIrrelevant(x: Setting, a: Attempt, prior: Stored)
    ensures Route(x.At(a.active), a.req, prior, a.nowSec) == Route(x, a.req, prior, a.nowSec)
  {
  }

  lemma StepKeepsConsistent(x: Setting, s: State, m: Move)
    requires Consistent(x, s)
    ensures Consistent(x, Next(x, s, m))
  {
    if m.Sign? && m.id in s.flights && s.flights[m.id].Loaded? {
      var f := s.flights[m.id];
      ActiveIsIrrelevant(x, f.a, f.prior);
      var r := Route(x, f.a.req, f.prior, f.a.nowSec);
      if r.Ok? {
        RouteAccepts(x, f.a.req, f.prior, f.a.nowSec);
        assert Sound(x, r.value) && StoreBundle(r.value) == StoreBundle(r.value);
      }
    }
  }

  lemma {:induction false} RunKeepsConsistent(x: Setting, s: State, moves: seq<Move>)
    requires Consistent(x, s)
    ensures Consistent(x, Run(x, s, moves))
    decreases |moves|
  {
    if moves != [] {
      StepKeepsConsistent(x, s, moves[0]);
      RunKeepsConsistent(x, Next(x, s, moves[0]), moves[1..]);
    }
  }

  // ---------------------------------------------------------------- what a request can still do

  /** The bundle the request carries is sound and it is not late: acceptable wherever that bundle does not conflict. */
  ghost predicate Carries(x: Setting, a: Attempt, b: Bundle) {
    x.Frozen().Ok? && !PastDeadline(x.Frozen().value, a.nowSec) && DecodeBundle(a.req) == Some(b) && Sound(x, b)
  }

  /** Over sound signatures a request stores exactly what it carries, if nothing else is stored. */
  lemma StoresIff(x: Setting, a: Attempt, prior: Stored, b: Bundle)
    requires StoredOk(x, prior)
    ensures Stores(x, a, prior) == Some(b) <==> Carries(x, a, b) && (prior == NOTHING_STORED || prior == StoreBundle(b))
  {
    if prior == NOTHING_STORED {
      FirstAcceptedIff(x, a.req, a.nowSec);
    } else {
      var stored :| Sound(x, stored) && prior == StoreBundle(stored);
      ReplayAcceptedIff(x, stored, a.req, a.nowSec);
      StoreInjective(stored, b);
    }
  }

  lemma StoreInjective(a: Bundle, b: Bundle)
    ensures StoreBundle(a) == StoreBundle(b) <==> a == b
  {
    ParsePrinted(a.buyer);
    ParsePrinted(a.seller);
    ParsePrinted(b.buyer);
    ParsePrinted(b.seller);
    assert StoreBundle(a) == StoreBundle(b) ==> Hex0x(a.buyer) == Hex0x(b.buyer) && Hex0x(a.seller) == Hex0x(b.seller);
  }

  /** Some request that has loaded will store this bundle. */
  ghost predicate WillStore(x: Setting, s: State, b: Bundle) {
    exists id :: id in s.flights && s.flights[id].Loaded? && Stores(x, s.flights[id].a, s.flights[id].prior) == Some(b)
  }

  /** What is, or can still come to be, stored lets this bundle through. */
  ghost predicate LetsIn(x: Setting, s: State, b: Bundle) {
    s.stored == NOTHING_STORED || s.stored == StoreBundle(b) || WillStore(x, s, b)
  }

  ghost predicate CanFinish(x: Setting, s: State, f: Flight) {
    match f
    case Started(a, _) => exists b :: Carries(x, a, b) && LetsIn(x, s, b)
    case Loaded(a, _, prior) => Stores(x, a, prior).Some?
    case Verified(_) => true
  }

  /** A request that saw the intent pending can still get to its last step. */
  ghost predicate Revivable(x: Setting, s: State) {
    exists id :: id in s.flights && s.flights[id].seen == Pending && CanFinish(x, s, s.flights[id])
  }

  // ---------------------------------------------------------------- an abandoned intent that stays so

  lemma WillStoreBefore(x: Setting, s: State, m: Move, b: Bundle)
    requires Consistent(x, s) && s.status == Abandoned && WillStore(x, Next(x, s, m), b)
    ensures LetsIn(x, s, b)
  {
    var t := Next(x, s, m);
    var id :| id in t.flights && t.flights[id].Loaded? && Stores(x, t.flights[id].a, t.flights[id].prior) == Some(b);
    if m.Load? && m.id == id && s.flights[id].Started? {
      StoresIff(x, t.flights[id].a, s.stored, b);
    } else {
      assert id in s.flights && s.flights[id] == t.flights[id];
    }
  }

  /** Whatever bundle can get in after a step could before. */
  lemma LetsInBefore(x: Setting, s: State, m: Move, b: Bundle)
    requires Consistent(x, s) && s.status == Abandoned && LetsIn(x, Next(x, s, m), b)
    ensures LetsIn(x, s, b)
  {
    var t := Next(x, s, m);
    if WillStore(x, t, b) {
      WillStoreBefore(x, s, m, b);
    } else if t.stored != s.stored {
      var f := s.flights[m.id];
      ActiveIsIrrelevant(x, f.a, f.prior);
      StoreInjective(Stores(x, f.a, f.prior).value, b);
    }
  }

  /** Whoever can finish after a step could before. */
  lemma FinishBefore(x: Setting, s: State, m: Move, id: nat)
    requires Consistent(x, s) && s.status == Abandoned
    requires id in Next(x, s, m).flights && CanFinish(x, Next(x, s, m), Next(x, s, m).flights[id])
    ensures id in s.flights && s.flights[id].seen == Next(x, s, m).flights[id].seen && CanFinish(x, s, s.flights[id])
  {
    var t := Next(x, s, m);
    var f := t.flights[id];
    if f.Started? {
      var b :| Carries(x, f.a, b) && LetsIn(x, t, b);
      LetsInBefore(x, s, m, b);
    } else if f.Loaded? && s.flights[id].Started? {
      StoresIff(x, f.a, s.stored, Stores(x, f.a, f.prior).value);
    } else if f.Verified? && s.flights[id].Loaded? {
      ActiveIsIrrelevant(x, s.flights[id].a, s.flights[id].prior);
    }
  }

  lemma StepStaysAbandoned(x: Setting, s: State, m: Move)
    requires Consistent(x, s) && s.status == Abandoned && !Revivable(x, s)
    ensures Next(x, s, m).status == Abandoned && !Revivable(x, Next(x, s, m))
  {
    var t := Next(x, s, m);
    if Revivable(x, t) {
      var id :| id in t.flights && t.flights[id].seen == Pending && CanFinish(x, t, t.flights[id]);
      FinishBefore(x, s, m, id);
    }
    if m.Advance? && m.id in s.flights && s.flights[m.id].Verified? {
      assert CanFinish(x, s, s.flights[m.id]);
    }
  }

  lemma {:induction false} StaysAbandoned(x: Setting, s: State, moves: seq<Move>)
    requires Consistent(x, s) && s.status == Abandoned && !Revivable(x, s)
    ensures Run(x, s, moves).status == Abandoned
    decreases |moves|
  {
    if moves != [] {
      StepStaysAbandoned(x, s, moves[0]);
      StepKeepsConsistent(x, s, moves[0]);
      StaysAbandoned(x, Next(x, s, moves[0]), moves[1..]);
    }
  }

  // ---------------------------------------------------------------- an abandoned intent that is revived

  lemma VerifiedRevives(x: Setting, s: State, id: nat)
    requires id in s.flights && s.flights[id] == Verified(Pending)
    ensures Run(x, s, [Advance(id)]).status == CalldataReady && Run(x, s, [Advance(id)]).stored == s.stored
  {
    assert Run(x, s, [Advance(id)]) == Run(x, Next(x, s, Advance(id)), []);
  }

  lemma LoadedRevives(x: Setting, s: State, id: nat)
    requires id in s.flights && s.flights[id].Loaded? && s.flights[id].seen == Pending
    ensures
      var b, after := Stores(x, s.flights[id].a, s.flights[id].prior), Run(x, s, [Sign(id), Advance(id)]);
      b.Some? ==> after.status == CalldataReady && after.stored == StoreBundle(b.value)
  {
    var f := s.flights[id];
    if Stores(x, f.a, f.prior).Some? {
      ActiveIsIrrelevant(x, f.a, f.prior);
      VerifiedRevives(x, Next(x, s, Sign(id)), id);
      assert [Sign(id), Advance(id)][1..] == [Advance(id)];
    }
  }

  lemma StartedRevives(x: Setting, s: State, id: nat, b: Bundle)
    requires Consistent(x, s) && id in s.flights && s.flights[id].Started? && s.flights[id].seen == Pending
    requires Carries(x, s.flights[id].a, b) && (s.stored == NOTHING_STORED || s.stored == StoreBundle(b))
    ensures Run(x, s, [Load(id), Sign(id), Advance(id)]).status == CalldataReady
  {
    StoresIff(x, s.flights[id].a, s.stored, b);
    LoadedRevives(x, Next(x, s, Load(id)), id);
    assert [Load(id), Sign(id), Advance(id)][1..] == [Sign(id), Advance(id)];
  }

  lemma StoredFirst(x: Setting, s: State, id: nat, b: Bundle) returns (moves: seq<Move>)
    requires Consistent(x, s) && id in s.flights && s.flights[id].Started? && s.flights[id].seen == Pending
    requires Carries(x, s.flights[id].a, b) && WillStore(x, s, b)
    ensures Run(x, s, moves).status == CalldataReady
  {
    var g :| g in s.flights && s.flights[g].Loaded? && Stores(x, s.flights[g].a, s.flights[g].prior) == Some(b);
    ActiveIsIrrelevant(x, s.flights[g].a, s.flights[g].prior);
    StepKeepsConsistent(x, s, Sign(g));
    StartedRevives(x, Next(x, s, Sign(g)), id, b);
    moves := [Sign(g)] + [Load(id), Sign(id), Advance(id)];
    assert moves[1..] == [Load(id), Sign(id), Advance(id)];
  }

  lemma Revival(x: Setting, s: State) returns (moves: seq<Move>)
    requires Consistent(x, s) && Revivable(x, s)
    ensures Run(x, s, moves).status == CalldataReady
  {
    var id :| id in s.flights && s.flights[id].seen == Pending && CanFinish(x, s, s.flights[id]);
    match s.flights[id]
    case Verified(_) =>
      VerifiedRevives(x, s, id);
      moves := [Advance(id)];
    case Loaded(_, _, _) =>
      LoadedRevives(x, s, id);
      moves := [Sign(id), Advance(id)];
    case Started(a, _) =>
      var b :| Carries(x, a, b) && LetsIn(x, s, b);
      if s.stored == NOTHING_STORED || s.stored == StoreBundle(b) {
        StartedRevives(x, s, id, b);
        moves := [Load(id), Sign(id), Advance(id)];
      } else {
        moves := StoredFirst(x, s, id, b);
      }
  }

  /**
   * Exactly when a retirement can be undone: some request in flight saw the intent pending and can still
   * finish, that is, it has verified, or what it loaded lets it, or what is or will be stored lets it.
   */
  lemma RetirementUndoneIff(x: Setting, s: State)
    requires Consistent(x, s) && s.status == Abandoned
    ensures (exists moves :: Run(x, s, moves).status != Abandoned) <==> Revivable(x, s)
  {
    if Revivable(x, s) {
      var moves := Revival(x, s);
      assert Run(x, s, moves).status != Abandoned;
    } else {
      forall moves ensures Run(x, s, moves).status == Abandoned { StaysAbandoned(x, s, moves); }
    }
  }

  /** So with no request in flight that saw it pending, an abandoned intent stays abandoned. */
  lemma QuietRetirementIsFinal(x: Setting, s: State, moves: seq<Move>)
    requires Consistent(x, s) && s.status == Abandoned
    requires forall id :: id in s.flights ==> s.flights[id].seen != Pending
    ensures Run(x, s, moves).status == Abandoned
  {
    StaysAbandoned(x, s, moves);
  }

  /** And with none in flight at all nothing changes any more: no signature is ever stored again. */
  lemma {:induction false} QuietRetirementFreezes(x: Setting, s: State, moves: seq<Move>)
    requires s.status == Abandoned && s.flights == map[]
    ensures Run(x, s, moves) == s
    decreases |moves|
  {
    if moves != [] {
      QuietRetirementFreezes(x, s, moves[1..]);
    }
  }

  /** A request has read a pending intent and its signatures, and is overtaken by a retirement. */
  function Overtaken(a: Attempt): (s: State) {
    State(Abandoned, NOTHING_STORED, map[0 := Loaded(a, Pending, NOTHING_STORED)])
  }

  lemma Overtakes(x: Setting, a: Attempt)
    ensures Run(x, State(Pending, NOTHING_STORED, map[]), [Start(0, a), Load(0), Retire]) == Overtaken(a)
  {
    var s := State(Pending, NOTHING_STORED, map[]);
    ThreeMoves(x, s, Start(0, a), Load(0), Retire);
    var read: map<nat, Flight> := map[0 := Started(a, Pending)];
    assert s.flights[0 := Started(a, Pending)] == read;
    assert read[0 := Loaded(a, Pending, NOTHING_STORED)] == Overtaken(a).flights;
  }

  /** If it is acceptable, it makes the intent ready again and stores its bundle. */
  lemma OvertakenRevives(x: Setting, a: Attempt)
    ensures Run(x, State(Pending, NOTHING_STORED, map[]), [Start(0, a), Load(0), Retire]) == Overtaken(a)
    ensures
      var b, after := Stores(x, a, NOTHING_STORED), Run(x, Overtaken(a), [Sign(0), Advance(0)]);
      b.Some? ==> after.status == CalldataReady && after.stored == StoreBundle(b.value)
  {
    Overtakes(x, a);
    LoadedRevives(x, Overtaken(a), 0);
  }

  lemma TwoMoves(x: Setting, s: State, a: Move, b: Move)
    ensures Run(x, s, [a, b]) == Next(x, Next(x, s, a), b)
  {
    assert [a, b][1..] == [b] && [b][1..] == [];
    assert Run(x, Next(x, s, a), [b]) == Run(x, Next(x, Next(x, s, a), b), []);
  }

  lemma ThreeMoves(x: Setting, s: State, a: Move, b: Move, c: Move)
    ensures Run(x, s, [a, b, c]) == Next(x, Next(x, Next(x, s, a), b), c)
  {
    assert [a, b, c][1..] == [b, c];
    TwoMoves(x, Next(x, s, a), b, c);
  }
}
