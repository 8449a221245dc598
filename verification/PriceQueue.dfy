/** One side of an order book: FIFO levels by price, and the single price-time queue they stand for. */
module PriceQueue {
  import opened Text

  type Id = nat

  type Levels = map<nat, seq<Id>>

  datatype Side = Buy | Sell

  function Opposite(s: Side): (t: Side) {
    if s == Buy then Sell else Buy
  }

  /** On this side of the book, price p is served strictly before price q. */
  predicate Ahead(side: Side, p: nat, q: nat) {
    if side == Sell then p < q else p > q
  }

  predicate IsBest(side: Side, levels: Levels, p: nat) {
    p in levels && forall q :: q in levels ==> !Ahead(side, q, p)
  }

  lemma {:induction false} BestExists(side: Side, levels: Levels)
    requires levels.Keys != {}
    ensures exists p :: IsBest(side, levels, p)
    decreases |levels.Keys|
  {
    var k :| k in levels;
    var rest := levels - {k};
    if rest.Keys == {} {
      assert forall q :: q in levels && q != k ==> q in rest.Keys;
      assert IsBest(side, levels, k);
    } else {
      BestExists(side, rest);
      var p :| IsBest(side, rest, p);
      var best := if Ahead(side, k, p) then k else p;
      forall q | q in levels ensures !Ahead(side, q, best) {
        assert q == k || q in rest;
      }
      assert IsBest(side, levels, best);
    }
  }

  ghost function Best(side: Side, levels: Levels): (p: nat)
    requires levels.Keys != {}
    ensures IsBest(side, levels, p)
  {
    BestExists(side, levels);
    var p :| IsBest(side, levels, p);
    p
  }

  /** The orders in the order they are served: by price, then by time of arrival at that price. */
  ghost function Queue(side: Side, levels: Levels): (q: seq<Id>)
    decreases |levels.Keys|
  {
    if levels.Keys == {} then []
    else
      var p := Best(side, levels);
      levels[p] + Queue(side, levels - {p})
  }

  function Before(side: Side, levels: Levels, p: nat): (r: Levels) {
    map q | q in levels && Ahead(side, q, p) :: levels[q]
  }

  function After(side: Side, levels: Levels, p: nat): (r: Levels) {
    map q | q in levels && Ahead(side, p, q) :: levels[q]
  }

  function At(levels: Levels, p: nat): (r: seq<Id>) {
    if p in levels then levels[p] else []
  }

  lemma BestFirst(side: Side, levels: Levels, p: nat, b: nat)
    requires IsBest(side, levels, b) && Ahead(side, b, p)
    ensures IsBest(side, Before(side, levels, p), b)
    ensures Before(side, levels - {b}, p) == Before(side, levels, p) - {b}
    ensures After(side, levels - {b}, p) == After(side, levels, p) && At(levels - {b}, p) == At(levels, p)
  {
  }

  /** The queue around a price: levels served before it, its own, levels served after it. */
  ghost function Around(side: Side, levels: Levels, p: nat): (q: seq<Id>) {
    Queue(side, Before(side, levels, p)) + At(levels, p) + Queue(side, After(side, levels, p))
  }

  lemma NothingBefore(side: Side, levels: Levels, p: nat)
    requires forall q :: q in levels ==> !Ahead(side, q, p)
    ensures Before(side, levels, p) == map[] && After(side, levels, p) == levels - {p}
  {
  }

  lemma AroundFirst(side: Side, levels: Levels, p: nat)
    requires forall q :: q in levels ==> !Ahead(side, q, p)
    ensures Around(side, levels, p) == Queue(side, levels)
  {
    NothingBefore(side, levels, p);
    if p in levels {
      NoPrefix(levels[p], Queue(side, levels - {p}));
    } else {
      assert levels - {p} == levels;
      NoPrefix([], Queue(side, levels));
    }
  }

  lemma NoPrefix(x: seq<Id>, y: seq<Id>)
    ensures [] + x + y == x + y
  {
  }

  lemma AroundLater(side: Side, levels: Levels, p: nat, b: nat)
    requires IsBest(side, levels, b) && Ahead(side, b, p)
    ensures Around(side, levels, p) == levels[b] + Around(side, levels - {b}, p)
  {
    BestFirst(side, levels, p, b);
  }

  /** Any price splits the queue. */
  lemma {:induction false} QueueAt(side: Side, levels: Levels, p: nat)
    ensures Queue(side, levels) == Around(side, levels, p)
    decreases |levels.Keys|
  {
    if levels.Keys == {} || !Ahead(side, Best(side, levels), p) {
      AroundFirst(side, levels, p);
    } else {
      var b := Best(side, levels);
      AroundLater(side, levels, p, b);
      QueueAt(side, levels - {b}, p);
    }
  }

  lemma QueueMember(side: Side, levels: Levels, id: Id)
    requires id in Queue(side, levels)
    ensures exists p :: p in levels && id in levels[p]
    decreases |levels.Keys|
  {
  }

  /** Replacing one level replaces exactly its stretch of the queue. */
  lemma QueueReplace(side: Side, levels: Levels, p: nat, other: Levels)
    requires forall q :: q != p ==> (q in levels <==> q in other) && (q in levels ==> levels[q] == other[q])
    ensures
      var before, after := Queue(side, Before(side, levels, p)), Queue(side, After(side, levels, p));
      Queue(side, levels) == before + At(levels, p) + after && Queue(side, other) == before + At(other, p) + after
  {
    QueueAt(side, levels, p);
    QueueAt(side, other, p);
    assert Before(side, other, p) == Before(side, levels, p) && After(side, other, p) == After(side, levels, p);
  }

  /** Serving the front of the best level, and dropping the level if that empties it, serves the front of the queue. */
  lemma PopServesFront(side: Side, levels: Levels, p: nat, other: Levels)
    requires IsBest(side, levels, p) && levels[p] != []
    requires other == if |levels[p]| == 1 then levels - {p} else levels[p := levels[p][1..]]
    ensures Queue(side, levels) != [] && Queue(side, levels)[0] == levels[p][0]
    ensures Queue(side, other) == Queue(side, levels)[1..]
  {
    QueueReplace(side, levels, p, other);
    assert Before(side, levels, p) == map[];
    FrontDropped(levels[p], Queue(side, After(side, levels, p)));
  }

  lemma FrontDropped(level: seq<Id>, rest: seq<Id>)
    requires level != []
    ensures [] + level + rest == level + rest && [] + level[1..] + rest == (level + rest)[1..]
  {
  }

  /** The book's best price, as the first or last key of an ordered map. */
  method FirstPrice(side: Side, levels: Levels) returns (r: Option<nat>)
    ensures r.None? <==> levels.Keys == {}
    ensures r.Some? ==> IsBest(side, levels, r.value)
  {
    r := None;
    var rest := levels.Keys;
    while rest != {}
      invariant rest <= levels.Keys
      invariant r.None? <==> rest == levels.Keys
      invariant r.Some? ==> r.value in levels && forall q :: q in levels && q !in rest ==> !Ahead(side, q, r.value)
      decreases |rest|
    {
      var k :| k in rest;
      if r.None? || Ahead(side, k, r.value) {
        r := Some(k);
      }
      rest := rest - {k};
    }
  }
}
