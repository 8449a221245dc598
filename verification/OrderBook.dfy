/**
 * The perp order book: price levels, order locations and orders, updated in place by submit and
 * cancel. The book is shown to behave as two price-time queues.
 */
module OrderBook {
  import opened Text
  import opened PriceQueue

  datatype TimeInForce = Gtc | Ioc | Fok

  datatype OrderStatus = NewOrder | OpenOrder | PartiallyFilled | Filled | CancelledOrder | RejectedOrder

  datatype Order = Order(
    id: Id,
    account: string,
    side: Side,
    timeInForce: TimeInForce,
    price: nat,
    size: nat,
    remaining: nat,
    postOnly: bool,
    nonce: Option<U64>,
    deadlineMs: Option<I64>,
    status: OrderStatus
  )

  type Orders = map<Id, Order>

  datatype Location = Location(side: Side, price: nat)

  datatype Trade = Trade(
    maker: Id,
    taker: Id,
    makerAccount: string,
    takerAccount: string,
    makerNonce: Option<U64>,
    takerNonce: Option<U64>,
    makerDeadlineMs: Option<I64>,
    takerDeadlineMs: Option<I64>,
    price: nat,
    size: nat,
    buyer: string,
    seller: string
  )

  datatype Submitted = Submitted(order: Order, trades: seq<Trade>, makerUpdates: seq<Order>)

  datatype BookError = ZeroPrice | ZeroSize | UnsupportedFok | PostOnlyWouldMatch | SelfTrade | OrderNotOpen

  /** `prices_cross`. */
  predicate Crosses(taker: Side, makerPrice: nat, takerPrice: nat) {
    if taker == Buy then makerPrice <= takerPrice else makerPrice >= takerPrice
  }

  function Min(a: nat, b: nat): (m: nat) {
    if a <= b then a else b
  }

  function TradeOf(maker: Order, taker: Order, size: nat): (t: Trade) {
    Trade(maker.id, taker.id, maker.account, taker.account, maker.nonce, taker.nonce,
          maker.deadlineMs, taker.deadlineMs, maker.price, size,
          if taker.side == Buy then taker.account else maker.account,
          if taker.side == Buy then maker.account else taker.account)
  }

  // ---------------------------------------------------------------- matching against one queue

  predicate Known(orders: Orders, queue: seq<Id>) {
    forall i :: 0 <= i < |queue| ==>
      queue[i] in orders && orders[queue[i]].id == queue[i] && orders[queue[i]].remaining > 0
  }

  /** What a taker trades when the other side is one queue. */
  ghost function Match(orders: Orders, queue: seq<Id>, taker: Order, remaining: nat): (trades: seq<Trade>)
    requires Known(orders, queue)
  {
    if remaining == 0 || queue == [] || !Crosses(taker.side, orders[queue[0]].price, taker.price) then []
    else
      var maker := orders[queue[0]];
      var fill := Min(remaining, maker.remaining);
      [TradeOf(maker, taker, fill)] + Match(orders, queue[1..], taker, remaining - fill)
  }

  /** What is left of the queue. */
  ghost function Left(orders: Orders, queue: seq<Id>, taker: Order, remaining: nat): (rest: seq<Id>)
    requires Known(orders, queue)
  {
    if remaining == 0 || queue == [] || !Crosses(taker.side, orders[queue[0]].price, taker.price) then queue
    else if remaining < orders[queue[0]].remaining then queue
    else Left(orders, queue[1..], taker, remaining - orders[queue[0]].remaining)
  }

  function Volume(trades: seq<Trade>): (v: nat) {
    if trades == [] then 0 else Volume(trades[..|trades| - 1]) + trades[|trades| - 1].size
  }

  /** A maker after a fill. */
  function FilledBy(o: Order, fill: nat): (r: Order)
    requires fill <= o.remaining
  {
    o.(remaining := o.remaining - fill, status := if o.remaining == fill then Filled else PartiallyFilled)
  }

  /** Matching looks only at the orders in the queue. */
  lemma {:induction false} MatchFrame(orders: Orders, other: Orders, queue: seq<Id>, taker: Order, remaining: nat)
    requires Known(orders, queue) && Known(other, queue)
    requires forall i :: 0 <= i < |queue| ==> other[queue[i]] == orders[queue[i]]
    ensures Match(orders, queue, taker, remaining) == Match(other, queue, taker, remaining)
    ensures Left(orders, queue, taker, remaining) == Left(other, queue, taker, remaining)
    decreases |queue|
  {
    if queue != [] && remaining > 0 && Crosses(taker.side, orders[queue[0]].price, taker.price) {
      MatchFrame(orders, other, queue[1..], taker, remaining - Min(remaining, orders[queue[0]].remaining));
    }
  }

  // ---------------------------------------------------------------- properties of matching

  /** A trade of a taker with a maker: at the maker's price, within the taker's limit and the maker's size. */
  predicate Deal(m: Order, o: Order, t: Trade) {
    && t == Trade(m.id, o.id, m.account, o.account, m.nonce, o.nonce, m.deadlineMs, o.deadlineMs, m.price, t.size,
                  t.buyer, t.seller)
    && (o.side == Buy ==> t.buyer == o.account && t.seller == m.account && t.price <= o.price)
    && (o.side == Sell ==> t.buyer == m.account && t.seller == o.account && t.price >= o.price)
    && 0 < t.size <= m.remaining
  }

  /** Price-time priority: makers are served in queue order, each to the full before the next is touched. */
  lemma {:induction false} MatchServesInOrder(orders: Orders, queue: seq<Id>, taker: Order, remaining: nat, i: nat)
    requires Known(orders, queue) && i < |Match(orders, queue, taker, remaining)|
    ensures
      var trades := Match(orders, queue, taker, remaining);
      && |trades| <= |queue| && Deal(orders[queue[i]], taker, trades[i])
      && (i + 1 < |trades| ==> trades[i].size == orders[queue[i]].remaining)
    decreases |queue|
  {
    var fill := Min(remaining, orders[queue[0]].remaining);
    var rest := Match(orders, queue[1..], taker, remaining - fill);
    if i > 0 {
      MatchServesInOrder(orders, queue[1..], taker, remaining - fill, i - 1);
    } else if rest != [] {
      MatchServesInOrder(orders, queue[1..], taker, remaining - fill, 0);
    }
  }

  /** The price is within the order's limit. */
  predicate InReach(o: Order, p: nat) {
    if o.side == Buy then p <= o.price else p >= o.price
  }

  /** The resting size the taker's price reaches. */
  ghost function Reachable(orders: Orders, queue: seq<Id>, taker: Order): (v: nat)
    requires Known(orders, queue)
  {
    if queue == [] then 0
    else
      (if InReach(taker, orders[queue[0]].price) then orders[queue[0]].remaining else 0)
      + Reachable(orders, queue[1..], taker)
  }

  predicate SortedFor(side: Side, orders: Orders, queue: seq<Id>)
    requires Known(orders, queue)
  {
    forall i, j :: 0 <= i < j < |queue| ==> !Ahead(side, orders[queue[j]].price, orders[queue[i]].price)
  }

  lemma {:induction false} NoneReachable(orders: Orders, queue: seq<Id>, taker: Order)
    requires Known(orders, queue)
    requires forall i :: 0 <= i < |queue| ==> !InReach(taker, orders[queue[i]].price)
    ensures Reachable(orders, queue, taker) == 0
  {
    if queue != [] { NoneReachable(orders, queue[1..], taker); }
  }

  lemma {:induction false} VolumeFront(t: Trade, trades: seq<Trade>)
    ensures Volume([t] + trades) == t.size + Volume(trades)
  {
    if trades != [] {
      var shorter := trades[..|trades| - 1];
      VolumeFront(t, shorter);
      assert ([t] + trades)[..|trades|] == [t] + shorter;
    } else {
      assert [t] + trades == [t] && [t][..0] == [];
    }
  }

  /** On a sorted queue the taker trades as much as it can: its size, or all the size its price reaches. */
  lemma {:induction false} MatchTradesMost(orders: Orders, queue: seq<Id>, taker: Order, remaining: nat)
    requires Known(orders, queue) && SortedFor(Opposite(taker.side), orders, queue)
    ensures Volume(Match(orders, queue, taker, remaining)) == Min(remaining, Reachable(orders, queue, taker))
    decreases |queue|
  {
    if queue != [] && remaining > 0 {
      var first := orders[queue[0]];
      if Crosses(taker.side, first.price, taker.price) {
        var fill := Min(remaining, first.remaining);
        MatchTradesMost(orders, queue[1..], taker, remaining - fill);
        VolumeFront(TradeOf(first, taker, fill), Match(orders, queue[1..], taker, remaining - fill));
      } else {
        NoneReachable(orders, queue, taker);
      }
    }
  }

  /** `intent_from_trade`: whose nonce goes where, and which order bought. */
  datatype TradeIntent = TradeIntent(
    buyer: string, seller: string, buyOrder: Id, sellOrder: Id, buyerIsMaker: bool,
    buyerNonce: Option<U64>, sellerNonce: Option<U64>, deadlineMs: Option<I64>)

  function IntentFromTrade(t: Trade): (i: TradeIntent) {
    var takerBuys := t.buyer == t.takerAccount;
    var makerBuys := t.buyer == t.makerAccount;
    TradeIntent(
      t.buyer, t.seller, if takerBuys then t.taker else t.maker, if takerBuys then t.maker else t.taker, makerBuys,
      if makerBuys then t.makerNonce else t.takerNonce, if makerBuys then t.takerNonce else t.makerNonce,
      if t.makerDeadlineMs.Some? && t.takerDeadlineMs.Some?
      then (if t.makerDeadlineMs.value <= t.takerDeadlineMs.value then t.makerDeadlineMs else t.takerDeadlineMs)
      else None)
  }

  /**
   * The intent names the parties by comparing accounts. Buyer and seller are always right. For a trade
   * within one account the order ids are swapped exactly when the taker sells, and the nonces and the
   * maker flag exactly when it buys.
   */
  lemma IntentNamesParties(maker: Order, taker: Order, size: nat)
    requires maker.side == Opposite(taker.side) && maker.id != taker.id
    ensures
      var i := IntentFromTrade(TradeOf(maker, taker, size));
      var buy, sell := if taker.side == Buy then taker else maker, if taker.side == Buy then maker else taker;
      var within := maker.account == taker.account;
      && i.buyer == buy.account && i.seller == sell.account
      && (if within && taker.side == Sell then i.buyOrder == sell.id && i.sellOrder == buy.id
          else i.buyOrder == buy.id && i.sellOrder == sell.id)
      && (if within && taker.side == Buy then i.buyerNonce == sell.nonce && i.sellerNonce == buy.nonce
          else i.buyerNonce == buy.nonce && i.sellerNonce == sell.nonce)
      && (i.buyerIsMaker <==> buy == maker || (within && taker.side == Buy))
      && (i.deadlineMs.Some? <==> maker.deadlineMs.Some? && taker.deadlineMs.Some?)
      && (i.deadlineMs.Some? ==>
            && i.deadlineMs.value <= maker.deadlineMs.value && i.deadlineMs.value <= taker.deadlineMs.value
            && (i.deadlineMs == maker.deadlineMs || i.deadlineMs == taker.deadlineMs))
  {
  }

  // ---------------------------------------------------------------- one side of the book

  type Locations = map<Id, Location>

  /** The order rests at this side and price, with size left. */
  predicate RestsAt(side: Side, p: nat, id: Id, orders: Orders, locs: Locations) {
    && id in orders && orders[id].id == id && orders[id].side == side && orders[id].price == p
    && 0 < orders[id].remaining && id in locs && locs[id] == Location(side, p)
  }

  predicate NoRepeats(level: seq<Id>) {
    forall i, j :: 0 <= i < j < |level| ==> level[i] != level[j]
  }

  predicate LevelOk(side: Side, p: nat, level: seq<Id>, orders: Orders, locs: Locations) {
    level != [] && NoRepeats(level) && forall i :: 0 <= i < |level| ==> RestsAt(side, p, level[i], orders, locs)
  }

  predicate LevelsOk(side: Side, levels: Levels, orders: Orders, locs: Locations) {
    forall p :: p in levels ==> LevelOk(side, p, levels[p], orders, locs)
  }

  /** Every location on this side points into its level. */
  predicate LocatedOk(side: Side, levels: Levels, locs: Locations) {
    forall id :: id in locs && locs[id].side == side ==> id in At(levels, locs[id].price)
  }

  predicate SideOk(side: Side, levels: Levels, orders: Orders, locs: Locations) {
    LevelsOk(side, levels, orders, locs) && LocatedOk(side, levels, locs)
  }

  /** Pop the front of a level; an emptied level goes. */
  function PopLevel(levels: Levels, p: nat): (r: Levels)
    requires p in levels && levels[p] != []
  {
    if |levels[p]| == 1 then levels - {p} else levels[p := levels[p][1..]]
  }

  /** The front order of a level is filled and leaves. */
  lemma FullFillKeeps(side: Side, levels: Levels, orders: Orders, locs: Locations, p: nat, filled: Order)
    requires SideOk(side, levels, orders, locs) && p in levels && levels[p] != []
    ensures SideOk(side, PopLevel(levels, p), orders[levels[p][0] := filled], locs - {levels[p][0]})
  {
    var id, after := levels[p][0], PopLevel(levels, p);
    var orders2, locs2 := orders[id := filled], locs - {id};
    assert LevelOk(side, p, levels[p], orders, locs);
    assert RestsAt(side, p, levels[p][0], orders, locs);
    assert LevelsOk(side, after, orders2, locs2);
    assert LocatedOk(side, after, locs2);
  }

  /** A new order goes to the back of its level. */
  function PushLevel(levels: Levels, p: nat, id: Id): (r: Levels) {
    levels[p := At(levels, p) + [id]]
  }

  lemma RestKeeps(side: Side, levels: Levels, orders: Orders, locs: Locations, o: Order)
    requires SideOk(side, levels, orders, locs) && o.side == side && 0 < o.remaining && o.id !in locs
    ensures SideOk(side, PushLevel(levels, o.price, o.id), orders[o.id := o], locs[o.id := Location(side, o.price)])
  {
  }

  /** The level without one order. */
  function Removed(level: seq<Id>, id: Id): (r: seq<Id>) {
    if level == [] then [] else if level[0] == id then level[1..] else [level[0]] + Removed(level[1..], id)
  }

  lemma {:induction false} RemovedMembers(level: seq<Id>, id: Id)
    ensures forall x :: x in Removed(level, id) ==> x in level
    ensures forall x :: x in level && x != id ==> x in Removed(level, id)
  {
    if level != [] {
      RemovedMembers(level[1..], id);
    }
  }

  lemma {:induction false} RemovedOk(side: Side, p: nat, level: seq<Id>, orders: Orders, locs: Locations, id: Id)
    requires NoRepeats(level) && forall i :: 0 <= i < |level| ==> RestsAt(side, p, level[i], orders, locs)
    ensures NoRepeats(Removed(level, id)) && id !in Removed(level, id)
    ensures forall i :: 0 <= i < |Removed(level, id)| ==> RestsAt(side, p, Removed(level, id)[i], orders, locs)
  {
    if level != [] && level[0] != id {
      var rest := Removed(level[1..], id);
      RemovedOk(side, p, level[1..], orders, locs, id);
      RemovedMembers(level[1..], id);
      assert level[0] !in rest;
    }
  }

  function DropFromLevel(levels: Levels, p: nat, id: Id): (r: Levels)
    requires p in levels
  {
    if Removed(levels[p], id) == [] then levels - {p} else levels[p := Removed(levels[p], id)]
  }

  lemma CancelKeeps(side: Side, levels: Levels, orders: Orders, locs: Locations, id: Id, after: Order)
    requires SideOk(side, levels, orders, locs) && id in locs && locs[id].side == side && locs[id].price in levels
    ensures SideOk(side, DropFromLevel(levels, locs[id].price, id), orders[id := after], locs - {id})
  {
    var p := locs[id].price;
    var levels2, orders2, locs2 := DropFromLevel(levels, p, id), orders[id := after], locs - {id};
    assert LevelOk(side, p, levels[p], orders, locs);
    RemovedOk(side, p, levels[p], orders, locs, id);
    RemovedMembers(levels[p], id);
    assert LevelsOk(side, levels2, orders2, locs2);
    forall other | other in locs2 && locs2[other].side == side ensures other in At(levels2, locs2[other].price) {
      assert other in At(levels, locs[other].price);
    }
  }

  // ---------------------------------------------------------------- a side as its queue

  lemma QueueRests(side: Side, levels: Levels, orders: Orders, locs: Locations, i: nat)
    requires LevelsOk(side, levels, orders, locs) && i < |Queue(side, levels)|
    ensures
      var id := Queue(side, levels)[i];
      && id in orders && orders[id].price in levels && id in levels[orders[id].price]
      && RestsAt(side, orders[id].price, id, orders, locs)
  {
    var id := Queue(side, levels)[i];
    QueueMember(side, levels, id);
    var p :| p in levels && id in levels[p];
    assert LevelOk(side, p, levels[p], orders, locs);
  }

  lemma QueueKnown(side: Side, levels: Levels, orders: Orders, locs: Locations)
    requires LevelsOk(side, levels, orders, locs)
    ensures Known(orders, Queue(side, levels))
  {
  }

  /** The queue is sorted by price. */
  lemma {:induction false} QueueSortedAt(side: Side, levels: Levels, orders: Orders, locs: Locations, i: nat, j: nat)
    requires LevelsOk(side, levels, orders, locs) && i < j < |Queue(side, levels)|
    ensures Queue(side, levels)[i] in orders && Queue(side, levels)[j] in orders
    ensures !Ahead(side, orders[Queue(side, levels)[j]].price, orders[Queue(side, levels)[i]].price)
    decreases |levels.Keys|
  {
    QueueRests(side, levels, orders, locs, i);
    QueueRests(side, levels, orders, locs, j);
    var b := Best(side, levels);
    var n, rest := |levels[b]|, levels - {b};
    assert Queue(side, levels) == levels[b] + Queue(side, rest);
    if i >= n {
      QueueSortedAt(side, rest, orders, locs, i - n, j - n);
    } else {
      assert LevelOk(side, b, levels[b], orders, locs);
      assert RestsAt(side, b, levels[b][i], orders, locs);
    }
  }

  lemma QueueSorted(side: Side, levels: Levels, orders: Orders, locs: Locations)
    requires LevelsOk(side, levels, orders, locs)
    ensures Known(orders, Queue(side, levels)) && SortedFor(side, orders, Queue(side, levels))
  {
    QueueKnown(side, levels, orders, locs);
    forall i, j | 0 <= i < j < |Queue(side, levels)|
      ensures !Ahead(side, orders[Queue(side, levels)[j]].price, orders[Queue(side, levels)[i]].price)
    {
      QueueSortedAt(side, levels, orders, locs, i, j);
    }
  }

  /** One side after its front order took a fill. */
  datatype Touched = Touched(levels: Levels, orders: Orders, locs: Locations)

  function Touch(levels: Levels, orders: Orders, locs: Locations, p: nat, fill: nat): (t: Touched)
    requires p in levels && levels[p] != [] && levels[p][0] in orders && fill <= orders[levels[p][0]].remaining
  {
    var id := levels[p][0];
    var orders2 := orders[id := FilledBy(orders[id], fill)];
    if fill == orders[id].remaining then Touched(PopLevel(levels, p), orders2, locs - {id})
    else Touched(levels, orders2, locs)
  }

  lemma TouchKeeps(side: Side, levels: Levels, orders: Orders, locs: Locations, p: nat, fill: nat)
    requires SideOk(side, levels, orders, locs) && p in levels && levels[p] != [] && levels[p][0] in orders
    requires 0 < fill <= orders[levels[p][0]].remaining
    ensures var t := Touch(levels, orders, locs, p, fill); SideOk(side, t.levels, t.orders, t.locs)
  {
    var id := levels[p][0];
    if fill == orders[id].remaining {
      FullFillKeeps(side, levels, orders, locs, p, FilledBy(orders[id], fill));
    } else {
    }
  }

  /** Serving the front of the best level is one step of matching against the queue. */
  ghost predicate OneStep(orders: Orders, queue: seq<Id>, orders2: Orders, queue2: seq<Id>, taker: Order,
                          remaining: nat, maker: Order, fill: nat) {
    && Known(orders, queue) && Known(orders2, queue2) && fill <= remaining
    && Match(orders, queue, taker, remaining) ==
       [TradeOf(maker, taker, fill)] + Match(orders2, queue2, taker, remaining - fill)
    && Left(orders, queue, taker, remaining) == Left(orders2, queue2, taker, remaining - fill)
  }

  lemma FullStep(orders: Orders, queue: seq<Id>, orders2: Orders, taker: Order, remaining: nat)
    requires Known(orders, queue) && queue != [] && Known(orders2, queue[1..])
    requires orders[queue[0]].remaining <= remaining
    requires Crosses(taker.side, orders[queue[0]].price, taker.price)
    requires forall i :: 0 <= i < |queue[1..]| ==> orders2[queue[1..][i]] == orders[queue[1..][i]]
    ensures OneStep(orders, queue, orders2, queue[1..], taker, remaining, orders[queue[0]], orders[queue[0]].remaining)
  {
    MatchFrame(orders, orders2, queue[1..], taker, remaining - orders[queue[0]].remaining);
  }

  lemma TouchMatches(side: Side, levels: Levels, orders: Orders, locs: Locations, p: nat, taker: Order, remaining: nat)
    requires SideOk(side, levels, orders, locs) && IsBest(side, levels, p) && remaining > 0
    requires Crosses(taker.side, p, taker.price)
    ensures levels[p] != [] && levels[p][0] in orders && orders[levels[p][0]].remaining > 0
    ensures
      var maker := orders[levels[p][0]];
      var fill := Min(remaining, maker.remaining);
      var t := Touch(levels, orders, locs, p, fill);
      OneStep(orders, Queue(side, levels), t.orders, Queue(side, t.levels), taker, remaining, maker, fill)
  {
    QueueKnown(side, levels, orders, locs);
    var maker := orders[levels[p][0]];
    var fill := Min(remaining, maker.remaining);
    TouchKeeps(side, levels, orders, locs, p, fill);
    var t := Touch(levels, orders, locs, p, fill);
    QueueKnown(side, t.levels, t.orders, t.locs);
    if fill == maker.remaining {
      PopServesFront(side, levels, p, t.levels);
      FilledIsGone(side, levels, orders, locs, p);
      FullStep(orders, Queue(side, levels), t.orders, taker, remaining);
    } else {
    }
  }

  /** The orders still in the queue are untouched by filling the front one. */
  lemma FilledIsGone(side: Side, levels: Levels, orders: Orders, locs: Locations, p: nat)
    requires p in levels && levels[p] != [] && levels[p][0] in orders
    requires
      var t := Touch(levels, orders, locs, p, orders[levels[p][0]].remaining);
      SideOk(side, t.levels, t.orders, t.locs)
    ensures
      var t := Touch(levels, orders, locs, p, orders[levels[p][0]].remaining);
      var queue := Queue(side, t.levels);
      forall i :: 0 <= i < |queue| ==>
        queue[i] in orders && queue[i] in t.orders && t.orders[queue[i]] == orders[queue[i]]
  {
    var t := Touch(levels, orders, locs, p, orders[levels[p][0]].remaining);
    var queue := Queue(side, t.levels);
    forall i | 0 <= i < |queue|
      ensures queue[i] in orders && queue[i] in t.orders && t.orders[queue[i]] == orders[queue[i]]
    {
      QueueRests(side, t.levels, t.orders, t.locs, i);
    }
  }

  // ---------------------------------------------------------------- the book as an object

  predicate Uncrossed(bids: Levels, asks: Levels) {
    forall p, q :: p in bids && q in asks ==> p < q
  }

  /** The whole book, seen from one side. */
  predicate BookOk(side: Side, own: Levels, other: Levels, orders: Orders, locs: Locations) {
    && SideOk(side, own, orders, locs) && SideOk(Opposite(side), other, orders, locs)
    && (if side == Buy then Uncrossed(own, other) else Uncrossed(other, own))
  }

  lemma TouchBook(side: Side, levels: Levels, other: Levels, orders: Orders, locs: Locations, p: nat, fill: nat)
    requires BookOk(side, levels, other, orders, locs) && p in levels && levels[p] != [] && levels[p][0] in orders
    requires 0 < fill <= orders[levels[p][0]].remaining
    ensures var t := Touch(levels, orders, locs, p, fill); BookOk(side, t.levels, other, t.orders, t.locs)
  {
    var t := Touch(levels, orders, locs, p, fill);
    TouchKeeps(side, levels, orders, locs, p, fill);
    assert LevelOk(side, p, levels[p], orders, locs);
    assert RestsAt(side, p, levels[p][0], orders, locs);
  }

  /** No price on a side is reached by the taker's. */
  predicate OutOfReach(taker: Order, levels: Levels) {
    forall q :: q in levels ==> !Crosses(taker.side, q, taker.price)
  }

  /** The makers after their fills. */
  function ApplyTrades(orders: Orders, trades: seq<Trade>): (r: Orders) {
    if trades == [] then orders
    else
      var before, t := ApplyTrades(orders, trades[..|trades| - 1]), trades[|trades| - 1];
      if t.maker in before && t.size <= before[t.maker].remaining
      then before[t.maker := FilledBy(before[t.maker], t.size)] else before
  }

  /** When the best price is out of reach, or there is none, nothing matches. */
  lemma NoMatch(side: Side, levels: Levels, orders: Orders, locs: Locations, taker: Order, remaining: nat)
    requires LevelsOk(side, levels, orders, locs) && side == Opposite(taker.side)
    requires forall p :: IsBest(side, levels, p) ==> !Crosses(taker.side, p, taker.price)
    ensures OutOfReach(taker, levels) && Known(orders, Queue(side, levels))
    ensures Match(orders, Queue(side, levels), taker, remaining) == []
    ensures Left(orders, Queue(side, levels), taker, remaining) == Queue(side, levels)
  {
    QueueKnown(side, levels, orders, locs);
    if levels.Keys != {} {
      var b := Best(side, levels);
    }
  }

  /**
   * Each update is the maker as it now stands; makers already served have left the book while the taker has
   * size left.
   */
  predicate UpdatesOk(trades: seq<Trade>, updates: seq<Order>, orders: Orders, locs: Locations, remaining: nat) {
    |updates| == |trades| && forall i :: 0 <= i < |trades| ==>
      trades[i].maker in orders && updates[i] == orders[trades[i].maker] && (remaining > 0 ==> trades[i].maker !in locs)
  }

  /** What the matching loop keeps: trades so far, and those still to come, are the trades of the queue. */
  ghost predicate MatchProgress(queue: seq<Id>, orders: Orders, taker: Order, remaining: nat, trades: seq<Trade>,
                                orders0: Orders, queue0: seq<Id>) {
    && Known(orders, queue) && Known(orders0, queue0)
    && trades + Match(orders, queue, taker, remaining) == Match(orders0, queue0, taker, taker.remaining)
    && Left(orders, queue, taker, remaining) == Left(orders0, queue0, taker, taker.remaining)
  }

  /** And the orders are the makers after their fills, the taker waiting untouched outside the levels. */
  predicate OrderProgress(orders: Orders, locs: Locations, taker: Order, remaining: nat, trades: seq<Trade>,
                          orders0: Orders) {
    && Volume(trades) + remaining == taker.remaining && orders == ApplyTrades(orders0, trades)
    && taker.id in orders0 && taker.id in orders && orders[taker.id] == orders0[taker.id] && taker.id !in locs
  }

  /** The taker has traded with the queue as far as it can: what it traded, what is left of both. */
  ghost predicate Matched(orders0: Orders, queue0: seq<Id>, taker: Order, remaining: nat, trades: seq<Trade>,
                          queue: seq<Id>) {
    && Known(orders0, queue0)
    && trades == Match(orders0, queue0, taker, taker.remaining)
    && queue == Left(orders0, queue0, taker, taker.remaining)
    && Volume(trades) + remaining == taker.remaining
  }

  lemma MatchBegins(queue: seq<Id>, orders: Orders, locs: Locations, taker: Order)
    requires Known(orders, queue) && taker.id in orders && taker.id !in locs
    ensures MatchProgress(queue, orders, taker, taker.remaining, [], orders, queue)
    ensures OrderProgress(orders, locs, taker, taker.remaining, [], orders)
    ensures UpdatesOk([], [], orders, locs, taker.remaining)
    ensures taker.remaining == 0 ==> Match(orders, queue, taker, taker.remaining) == []
  {
  }

  lemma MatchDone(queue: seq<Id>, orders: Orders, taker: Order, remaining: nat, trades: seq<Trade>, orders0: Orders,
                  queue0: seq<Id>)
    requires MatchProgress(queue, orders, taker, remaining, trades, orders0, queue0)
    requires Match(orders, queue, taker, remaining) == [] && Volume(trades) + remaining == taker.remaining
    ensures Matched(orders0, queue0, taker, remaining, trades, queue)
  {
  }

  lemma MatchStep(queue: seq<Id>, orders: Orders, queue2: seq<Id>, orders2: Orders, taker: Order, remaining: nat,
                  fill: nat, maker: Order, trades: seq<Trade>, orders0: Orders, queue0: seq<Id>)
    requires OneStep(orders, queue, orders2, queue2, taker, remaining, maker, fill)
    requires MatchProgress(queue, orders, taker, remaining, trades, orders0, queue0)
    ensures MatchProgress(queue2, orders2, taker, remaining - fill, trades + [TradeOf(maker, taker, fill)], orders0,
                          queue0)
  {
  }

  /** One turn of the matching loop keeps all it keeps. */
  lemma LoopStep(side: Side, s: Touched, p: nat, taker: Order, remaining: nat, trades: seq<Trade>, updates: seq<Order>,
                 orders0: Orders, queue0: seq<Id>)
    requires SideOk(side, s.levels, s.orders, s.locs) && IsBest(side, s.levels, p) && remaining > 0
    requires Crosses(taker.side, p, taker.price)
    requires MatchProgress(Queue(side, s.levels), s.orders, taker, remaining, trades, orders0, queue0)
    requires OrderProgress(s.orders, s.locs, taker, remaining, trades, orders0)
    requires UpdatesOk(trades, updates, s.orders, s.locs, remaining)
    ensures s.levels[p] != [] && s.levels[p][0] in s.orders && s.orders[s.levels[p][0]].remaining > 0
    ensures
      var maker := s.orders[s.levels[p][0]];
      var fill := Min(remaining, maker.remaining);
      var t, more := Touch(s.levels, s.orders, s.locs, p, fill), trades + [TradeOf(maker, taker, fill)];
      && MatchProgress(Queue(side, t.levels), t.orders, taker, remaining - fill, more, orders0, queue0)
      && OrderProgress(t.orders, t.locs, taker, remaining - fill, more, orders0)
      && UpdatesOk(more, updates + [t.orders[s.levels[p][0]]], t.orders, t.locs, remaining - fill)
  {
    TouchMatches(side, s.levels, s.orders, s.locs, p, taker, remaining);
    var maker := s.orders[s.levels[p][0]];
    var fill := Min(remaining, maker.remaining);
    var t := Touch(s.levels, s.orders, s.locs, p, fill);
    MatchStep(Queue(side, s.levels), s.orders, Queue(side, t.levels), t.orders, taker, remaining, fill, maker, trades,
              orders0, queue0);
  }

  predicate WouldSelfTrade(levels: Levels, orders: Orders, o: Order) {
    exists p, i ::
      p in levels && Crosses(o.side, p, o.price) && 0 <= i < |levels[p]| && OwnedBy(orders, levels[p][i], o)
  }

  predicate OwnedBy(orders: Orders, id: Id, o: Order) {
    id in orders && orders[id].account == o.account
  }

  // ---------------------------------------------------------------- resting, and the taker's fate

  /** Time priority: the new order stands behind every order at its price or better, ahead of every worse one. */
  ghost predicate Inserted(side: Side, orders: Orders, queue: seq<Id>, queue2: seq<Id>, o: Order, cut: nat)
    requires Known(orders, queue)
  {
    && cut <= |queue| && queue2 == queue[..cut] + [o.id] + queue[cut..]
    && (forall i :: 0 <= i < cut ==> !Ahead(side, o.price, orders[queue[i]].price))
    && (forall i :: cut <= i < |queue| ==> Ahead(side, o.price, orders[queue[i]].price))
  }

  lemma RestInserts(side: Side, levels: Levels, orders: Orders, locs: Locations, o: Order) returns (cut: nat)
    requires LevelsOk(side, levels, orders, locs)
    ensures Known(orders, Queue(side, levels))
    ensures Inserted(side, orders, Queue(side, levels), Queue(side, PushLevel(levels, o.price, o.id)), o, cut)
  {
    QueueKnown(side, levels, orders, locs);
    var p, pushed := o.price, PushLevel(levels, o.price, o.id);
    QueueReplace(side, levels, p, pushed);
    var before, level := Queue(side, Before(side, levels, p)), At(levels, p);
    var after := Queue(side, After(side, levels, p));
    cut := |before| + |level|;
    CutAt(before, level, after, o.id);
    var queue := Queue(side, levels);
    forall i | 0 <= i < |queue| ensures Ahead(side, p, orders[queue[i]].price) <==> cut <= i {
      PriceAcross(side, levels, orders, locs, p, i);
    }
  }

  lemma CutAt(before: seq<Id>, level: seq<Id>, after: seq<Id>, id: Id)
    ensures
      var queue, cut := before + level + after, |before| + |level|;
      before + (level + [id]) + after == queue[..cut] + [id] + queue[cut..]
  {
  }

  lemma PricesBefore(side: Side, levels: Levels, orders: Orders, locs: Locations, p: nat, i: nat)
    requires LevelsOk(side, levels, orders, locs) && i < |Queue(side, Before(side, levels, p))|
    ensures var id := Queue(side, Before(side, levels, p))[i]; id in orders && Ahead(side, orders[id].price, p)
  {
    QueueRests(side, Before(side, levels, p), orders, locs, i);
  }

  lemma PricesAfter(side: Side, levels: Levels, orders: Orders, locs: Locations, p: nat, i: nat)
    requires LevelsOk(side, levels, orders, locs) && i < |Queue(side, After(side, levels, p))|
    ensures var id := Queue(side, After(side, levels, p))[i]; id in orders && Ahead(side, p, orders[id].price)
  {
    QueueRests(side, After(side, levels, p), orders, locs, i);
  }

  /** Where an order's price stands relative to p tells on which side of p's level it is in the queue. */
  lemma PriceAcross(side: Side, levels: Levels, orders: Orders, locs: Locations, p: nat, i: nat)
    requires LevelsOk(side, levels, orders, locs) && i < |Queue(side, levels)|
    ensures Queue(side, levels)[i] in orders
    ensures Ahead(side, p, orders[Queue(side, levels)[i]].price) <==>
      |Queue(side, Before(side, levels, p))| + |At(levels, p)| <= i
  {
    QueueAt(side, levels, p);
    var before, there := Queue(side, Before(side, levels, p)), At(levels, p);
    var after := Queue(side, After(side, levels, p));
    if i < |before| {
      PricesBefore(side, levels, orders, locs, p, i);
    } else if i >= |before| + |there| {
      PricesAfter(side, levels, orders, locs, p, i - |before| - |there|);
    }
  }

  lemma RestBook(own: Levels, other: Levels, orders: Orders, locs: Locations, o: Order)
    requires BookOk(o.side, own, other, orders, locs) && 0 < o.remaining && o.id !in locs && OutOfReach(o, other)
    ensures BookOk(o.side, PushLevel(own, o.price, o.id), other, orders[o.id := o],
                   locs[o.id := Location(o.side, o.price)])
  {
    RestKeeps(o.side, own, orders, locs, o);
  }

  /** Storing an order under a resting id leaves the book valid exactly for size left at the same side and price. */
  lemma OverwriteKeepsIff(side: Side, own: Levels, other: Levels, orders: Orders, locs: Locations, o: Order)
    requires BookOk(side, own, other, orders, locs) && o.id in locs && locs[o.id].side == side
    ensures BookOk(side, own, other, orders[o.id := o], locs) <==>
      o.side == side && o.price == locs[o.id].price && 0 < o.remaining
  {
    var p, orders2 := locs[o.id].price, orders[o.id := o];
    assert o.id in At(own, p);
    var k :| 0 <= k < |own[p]| && own[p][k] == o.id;
    if o.side == side && o.price == p && 0 < o.remaining {
      forall q | q in own
        ensures LevelOk(side, q, own[q], orders2, locs)
      {
        assert LevelOk(side, q, own[q], orders, locs);
      }
    } else {
      assert !RestsAt(side, p, own[p][k], orders2, locs);
      assert !LevelOk(side, p, own[p], orders2, locs);
    }
  }

  /** The id does not rest, or rests just where the order would. */
  predicate SamePlace(locs: Locations, o: Order) {
    o.id in locs ==> locs[o.id] == Location(o.side, o.price)
  }

  /** Resting an id that already rests always breaks the book: it would stand in the queue twice. */
  lemma RestingTwiceBreaks(own: Levels, other: Levels, orders: Orders, locs: Locations, o: Order)
    requires BookOk(o.side, own, other, orders, locs) && o.id in locs
    ensures !BookOk(o.side, PushLevel(own, o.price, o.id), other, orders[o.id := o],
                    locs[o.id := Location(o.side, o.price)])
  {
    var at, pushed := locs[o.id], PushLevel(own, o.price, o.id);
    var orders2, locs2 := orders[o.id := o], locs[o.id := Location(o.side, o.price)];
    var levels := if at.side == o.side then own else other;
    assert o.id in At(levels, at.price);
    var k :| 0 <= k < |levels[at.price]| && levels[at.price][k] == o.id;
    if at == Location(o.side, o.price) {
      var level := pushed[o.price];
      assert level[k] == level[|level| - 1];
      assert !NoRepeats(level);
      assert !LevelOk(o.side, o.price, level, orders2, locs2);
    } else if at.side == o.side {
      assert !RestsAt(o.side, at.price, pushed[at.price][k], orders2, locs2);
      assert !LevelOk(o.side, at.price, pushed[at.price], orders2, locs2);
    } else {
      assert !RestsAt(at.side, at.price, other[at.price][k], orders2, locs2);
      assert !LevelOk(at.side, at.price, other[at.price], orders2, locs2);
    }
  }

  /** What becomes of the taker: filled, resting, or cut off. */
  function Settled(o: Order, remaining: nat, traded: bool): (r: Order) {
    if remaining == 0 then o.(remaining := 0, status := Filled)
    else if o.timeInForce == Gtc then
      o.(remaining := remaining, status := if remaining < o.size then PartiallyFilled else OpenOrder)
    else o.(remaining := 0, status := if traded then PartiallyFilled else CancelledOrder)
  }

  /** One update per trade: the maker after all of them. */
  predicate UpdatesAre(trades: seq<Trade>, updates: seq<Order>, orders: Orders) {
    |updates| == |trades| && forall i :: 0 <= i < |trades| ==>
      trades[i].maker in orders && updates[i] == orders[trades[i].maker]
  }

  predicate StillRests(o: Order, remaining: nat) {
    remaining > 0 && o.timeInForce == Gtc
  }

  /** On a valid side the taker trades as much as it can: its size, or all the resting size its price reaches. */
  lemma TakerTradesMost(side: Side, levels: Levels, orders: Orders, locs: Locations, o: Order)
    requires LevelsOk(side, levels, orders, locs) && side == Opposite(o.side) && o.id !in locs
    ensures Known(orders[o.id := o], Queue(side, levels))
    ensures Volume(Match(orders[o.id := o], Queue(side, levels), o, o.remaining)) ==
            Min(o.remaining, Reachable(orders[o.id := o], Queue(side, levels), o))
  {
    var queue := Queue(side, levels);
    QueueSorted(side, levels, orders, locs);
    forall i | 0 <= i < |queue| ensures queue[i] != o.id { QueueRests(side, levels, orders, locs, i); }
    MatchTradesMost(orders[o.id := o], queue, o, o.remaining);
  }

  /** An order that would not trade with its own account does not. */
  lemma NoSelfTrades(side: Side, levels: Levels, orders: Orders, locs: Locations, o: Order, i: nat)
    requires LevelsOk(side, levels, orders, locs) && o.id !in locs && !WouldSelfTrade(levels, orders, o)
    requires Known(orders[o.id := o], Queue(side, levels))
    requires i < |Match(orders[o.id := o], Queue(side, levels), o, o.remaining)|
    ensures Match(orders[o.id := o], Queue(side, levels), o, o.remaining)[i].makerAccount != o.account
  {
    MatchServesInOrder(orders[o.id := o], Queue(side, levels), o, o.remaining, i);
    QueueRests(side, levels, orders, locs, i);
    var id := Queue(side, levels)[i];
    var k :| 0 <= k < |levels[orders[id].price]| && levels[orders[id].price][k] == id;
  }

  predicate WouldMatch(levels: Levels, o: Order) {
    exists p :: p in levels && Crosses(o.side, p, o.price)
  }

  /** Why `submit` refuses an order, if it does. */
  function Refusal(o: Order, other: Levels, orders: Orders): (e: Option<BookError>) {
    if o.price == 0 then Some(ZeroPrice)
    else if o.size == 0 || o.remaining == 0 then Some(ZeroSize)
    else if o.timeInForce == Fok then Some(UnsupportedFok)
    else if o.postOnly && WouldMatch(other, o) then Some(PostOnlyWouldMatch)
    else if WouldSelfTrade(other, orders, o) then Some(SelfTrade)
    else None
  }

  predicate Admits(o: Order, other: Levels, orders: Orders) {
    Refusal(o, other, orders).None?
  }

  /** The order has a price and a size, and may rest. */
  predicate WellFormed(o: Order) {
    0 < o.price && 0 < o.size && 0 < o.remaining && o.timeInForce != Fok
  }

  /**
   * When the book refuses a well-formed order: post-only with an opposite price within its limit, or an order of
   * its own account resting at such a price.
   */
  lemma RefusalExactly(o: Order, other: Levels, orders: Orders)
    ensures Refusal(o, other, orders) == Some(PostOnlyWouldMatch) <==>
      WellFormed(o) && o.postOnly && exists p :: p in other && InReach(o, p)
    ensures Refusal(o, other, orders) == Some(SelfTrade) <==>
      && WellFormed(o) && !(o.postOnly && exists p :: p in other && InReach(o, p))
      && exists p, i :: p in other && InReach(o, p) && 0 <= i < |other[p]| && OwnedBy(orders, other[p][i], o)
    ensures Admits(o, other, orders) <==>
      && WellFormed(o) && !(o.postOnly && exists p :: p in other && InReach(o, p))
      && forall p, i :: p in other && InReach(o, p) && 0 <= i < |other[p]| ==> !OwnedBy(orders, other[p][i], o)
  {
    assert forall p :: p in other ==> (InReach(o, p) <==> Crosses(o.side, p, o.price));
  }

  // ---------------------------------------------------------------- what submit reports

  lemma {:induction false} QueueNoRepeats(side: Side, levels: Levels, orders: Orders, locs: Locations, i: nat, j: nat)
    requires LevelsOk(side, levels, orders, locs) && i < j < |Queue(side, levels)|
    ensures Queue(side, levels)[i] != Queue(side, levels)[j]
    decreases |levels.Keys|
  {
    var b := Best(side, levels);
    var n, rest := |levels[b]|, levels - {b};
    assert Queue(side, levels) == levels[b] + Queue(side, rest);
    assert LevelOk(side, b, levels[b], orders, locs);
    if i >= n {
      QueueNoRepeats(side, rest, orders, locs, i - n, j - n);
    } else if j >= n {
      QueueRests(side, rest, orders, locs, j - n);
      assert RestsAt(side, b, levels[b][i], orders, locs);
    }
  }

  predicate DistinctMakers(trades: seq<Trade>) {
    forall i, j :: 0 <= i < j < |trades| ==> trades[i].maker != trades[j].maker
  }

  lemma {:induction false} ApplyOthers(orders: Orders, trades: seq<Trade>, id: Id)
    requires forall i :: 0 <= i < |trades| ==> trades[i].maker != id
    ensures id in ApplyTrades(orders, trades) <==> id in orders
    ensures id in orders ==> ApplyTrades(orders, trades)[id] == orders[id]
  {
    if trades != [] {
      ApplyOthers(orders, trades[..|trades| - 1], id);
    }
  }

  /** With distinct makers each is filled once. */
  lemma {:induction false} ApplyOnce(orders: Orders, trades: seq<Trade>, i: nat)
    requires DistinctMakers(trades) && i < |trades| && trades[i].maker in orders
    requires trades[i].size <= orders[trades[i].maker].remaining
    ensures trades[i].maker in ApplyTrades(orders, trades)
    ensures ApplyTrades(orders, trades)[trades[i].maker] == FilledBy(orders[trades[i].maker], trades[i].size)
  {
    var shorter := trades[..|trades| - 1];
    if i == |trades| - 1 {
      ApplyOthers(orders, shorter, trades[i].maker);
    } else {
      ApplyOnce(orders, shorter, i);
    }
  }

  /** The maker afterwards: smaller by the trade, and filled exactly when nothing is left. */
  predicate FilledMaker(m: Order, t: Trade, after: Order) {
    t.size <= m.remaining &&
    after == m.(remaining := m.remaining - t.size, status := if t.size < m.remaining then PartiallyFilled else Filled)
  }

  /** The order afterwards: what it did not trade rests if good till cancelled, and is given up otherwise. */
  predicate FinalOrder(o: Order, volume: nat, after: Order) {
    && volume <= o.remaining
    && after == o.(
         remaining := if o.timeInForce == Gtc then o.remaining - volume else 0,
         status := if volume == o.remaining then Filled
                   else if o.timeInForce == Gtc then
                     (if o.remaining - volume < o.size then PartiallyFilled else OpenOrder)
                   else if volume == 0 then CancelledOrder else PartiallyFilled)
  }

  /** In terms of the orders before: every trade is a deal with a different opposite order. */
  predicate Accounts(o: Order, before: Orders, r: Submitted) {
    && |r.makerUpdates| == |r.trades| && DistinctMakers(r.trades)
    && (forall i :: 0 <= i < |r.trades| ==>
          && r.trades[i].maker in before && before[r.trades[i].maker].side != o.side
          && Deal(before[r.trades[i].maker], o, r.trades[i])
          && FilledMaker(before[r.trades[i].maker], r.trades[i], r.makerUpdates[i]))
    && FinalOrder(o, Volume(r.trades), r.order)
  }

  /** Every order that is neither the taker nor one of its makers is as before. */
  predicate OthersKept(o: Order, before: Orders, after: Orders, trades: seq<Trade>) {
    forall id :: id in before && id != o.id && (forall i :: 0 <= i < |trades| ==> trades[i].maker != id) ==>
      id in after && after[id] == before[id]
  }

  lemma {:induction false} VolumePositive(trades: seq<Trade>)
    requires forall i :: 0 <= i < |trades| ==> 0 < trades[i].size
    ensures Volume(trades) == 0 <==> trades == []
  {
  }

  /** The i-th trade of a taker on a valid side, and its maker afterwards. */
  lemma TradeReported(side: Side, levels: Levels, orders: Orders, locs: Locations, o: Order, trades: seq<Trade>, i: nat)
    requires LevelsOk(side, levels, orders, locs) && side == Opposite(o.side) && o.id !in locs
    requires Known(orders[o.id := o], Queue(side, levels))
    requires trades == Match(orders[o.id := o], Queue(side, levels), o, o.remaining) && i < |trades|
    ensures |trades| <= |Queue(side, levels)| && trades[i].maker == Queue(side, levels)[i]
    ensures trades[i].maker in orders && trades[i].maker != o.id && orders[trades[i].maker].side == side
    ensures Deal(orders[trades[i].maker], o, trades[i])
  {
    MatchServesInOrder(orders[o.id := o], Queue(side, levels), o, o.remaining, i);
    QueueRests(side, levels, orders, locs, i);
  }

  lemma MakersDiffer(side: Side, levels: Levels, orders: Orders, locs: Locations, o: Order, trades: seq<Trade>)
    requires LevelsOk(side, levels, orders, locs) && side == Opposite(o.side) && o.id !in locs
    requires Known(orders[o.id := o], Queue(side, levels))
    requires trades == Match(orders[o.id := o], Queue(side, levels), o, o.remaining)
    ensures DistinctMakers(trades) && (Volume(trades) == 0 <==> trades == [])
  {
    forall i | 0 <= i < |trades| ensures 0 < trades[i].size {
      TradeReported(side, levels, orders, locs, o, trades, i);
    }
    VolumePositive(trades);
    forall i, j | 0 <= i < j < |trades| ensures trades[i].maker != trades[j].maker {
      TradeReported(side, levels, orders, locs, o, trades, i);
      TradeReported(side, levels, orders, locs, o, trades, j);
      QueueNoRepeats(side, levels, orders, locs, i, j);
    }
  }

  /** The trades against the queue, the makers after them and the taker's fate are what `submit` should report. */
  lemma SubmitAccounts(side: Side, levels: Levels, orders: Orders, locs: Locations, o: Order, r: Submitted,
                      remaining: nat, between: Orders)
    requires LevelsOk(side, levels, orders, locs) && side == Opposite(o.side) && o.id !in locs
    requires Known(orders[o.id := o], Queue(side, levels))
    requires r.trades == Match(orders[o.id := o], Queue(side, levels), o, o.remaining)
    requires Volume(r.trades) + remaining == o.remaining && r.order == Settled(o, remaining, r.trades != [])
    requires between == ApplyTrades(orders[o.id := o], r.trades) && UpdatesAre(r.trades, r.makerUpdates, between)
    ensures Accounts(o, orders, r) && OthersKept(o, orders, between, r.trades)
  {
    MakersDiffer(side, levels, orders, locs, o, r.trades);
    forall i | 0 <= i < |r.trades|
      ensures
        && r.trades[i].maker in orders && orders[r.trades[i].maker].side != o.side
        && Deal(orders[r.trades[i].maker], o, r.trades[i])
        && FilledMaker(orders[r.trades[i].maker], r.trades[i], r.makerUpdates[i])
    {
      TradeReported(side, levels, orders, locs, o, r.trades, i);
      ApplyOnce(orders[o.id := o], r.trades, i);
    }
    forall id | id in orders && id != o.id && (forall i :: 0 <= i < |r.trades| ==> r.trades[i].maker != id)
      ensures id in between && between[id] == orders[id]
    {
      ApplyOthers(orders[o.id := o], r.trades, id);
    }
  }

  /** What `submit` answers an admitted order, and what it leaves. */
  predicate Reports(o: Order, before: Orders, after: Orders, r: Submitted) {
    && Accounts(o, before, r) && OthersKept(o, before, after, r.trades) && (o.postOnly ==> r.trades == [])
    && forall i :: 0 <= i < |r.trades| ==> r.trades[i].makerAccount != o.account
  }

  /** Opening the order first makes no difference. */
  lemma OpeningReports(o: Order, before: Orders, after: Orders, r: Submitted)
    requires Reports(o.(status := OpenOrder), before, after, r)
    ensures Reports(o, before, after, r)
  {
    var taker := o.(status := OpenOrder);
    assert Accounts(taker, before, r) && OthersKept(taker, before, after, r.trades);
  }

  lemma OpeningAdmits(o: Order, other: Levels, orders: Orders)
    requires Admits(o, other, orders)
    ensures Admits(o.(status := OpenOrder), other, orders)
  {
    RefusalExactly(o, other, orders);
    RefusalExactly(o.(status := OpenOrder), other, orders);
  }

  /** Cancelling an order joins what was before and after it. */
  lemma RemovedJoins(a: seq<Id>, id: Id, b: seq<Id>)
    requires id !in a
    ensures Removed(a + [id] + b, id) == a + b
  {
    RemovedAfter(a, [id] + b, id);
    assert a + [id] + b == a + ([id] + b) && ([id] + b)[1..] == b;
  }

  lemma {:induction false} RemovedAfter(a: seq<Id>, rest: seq<Id>, id: Id)
    requires id !in a
    ensures Removed(a + rest, id) == a + Removed(rest, id)
  {
    if a == [] {
      assert a + rest == rest;
    } else {
      RemovedAfter(a[1..], rest, id);
      assert (a + rest)[0] == a[0] && (a + rest)[1..] == a[1..] + rest;
      assert [a[0]] + (a[1..] + Removed(rest, id)) == a + Removed(rest, id);
    }
  }

  lemma {:induction false} RemovedBefore(level: seq<Id>, b: seq<Id>, id: Id)
    requires id in level
    ensures Removed(level + b, id) == Removed(level, id) + b
  {
    assert (level + b)[1..] == level[1..] + b;
    if level[0] != id {
      RemovedBefore(level[1..], b, id);
    }
  }

  lemma RemovedMiddle(a: seq<Id>, level: seq<Id>, b: seq<Id>, id: Id)
    requires id !in a && id in level
    ensures Removed(a + level + b, id) == a + Removed(level, id) + b
  {
    RemovedAfter(a, level + b, id);
    RemovedBefore(level, b, id);
    assert a + level + b == a + (level + b) && a + Removed(level, id) + b == a + (Removed(level, id) + b);
  }

  lemma NotBefore(side: Side, levels: Levels, orders: Orders, locs: Locations, p: nat, id: Id)
    requires LevelsOk(side, levels, orders, locs) && id in locs && locs[id] == Location(side, p)
    ensures id !in Queue(side, Before(side, levels, p))
  {
    var before := Before(side, levels, p);
    forall i | 0 <= i < |Queue(side, before)| ensures Queue(side, before)[i] != id {
      QueueRests(side, before, orders, locs, i);
    }
  }

  /** Cancelling takes the order out of the queue and moves no other. */
  lemma CancelRemoves(side: Side, levels: Levels, orders: Orders, locs: Locations, id: Id)
    requires SideOk(side, levels, orders, locs) && id in locs && locs[id].side == side
    ensures locs[id].price in levels
    ensures Queue(side, DropFromLevel(levels, locs[id].price, id)) == Removed(Queue(side, levels), id)
  {
    var p := locs[id].price;
    assert id in At(levels, p);
    QueueReplace(side, levels, p, DropFromLevel(levels, p, id));
    NotBefore(side, levels, orders, locs, p, id);
    RemovedMiddle(Queue(side, Before(side, levels, p)), levels[p], Queue(side, After(side, levels, p)), id);
  }

  lemma CancelBook(side: Side, levels: Levels, other: Levels, orders: Orders, locs: Locations, id: Id, after: Order)
    requires BookOk(side, levels, other, orders, locs) && id in locs && locs[id].side == side
    requires locs[id].price in levels
    ensures BookOk(side, DropFromLevel(levels, locs[id].price, id), other, orders[id := after], locs - {id})
  {
    CancelKeeps(side, levels, orders, locs, id, after);
  }

  /**
   * From the orders with the taker among them and the two queues to those afterwards: the taker trades
   * exactly as against the other queue; `between` has the makers after their fills; the taker's remainder
   * rests behind its equals, at `cut`, or is cut off.
   */
  ghost predicate Executed(taker: Order, orders0: Orders, own0: seq<Id>, other0: seq<Id>, orders: Orders,
                           own: seq<Id>, other: seq<Id>, r: Submitted, remaining: nat, cut: nat, between: Orders) {
    && Matched(orders0, other0, taker, remaining, r.trades, other)
    && between == ApplyTrades(orders0, r.trades) && orders == between[taker.id := r.order]
    && r.order == Settled(taker, remaining, r.trades != []) && UpdatesAre(r.trades, r.makerUpdates, between)
    && Known(between, own0)
    && (if StillRests(taker, remaining) then Inserted(taker.side, between, own0, own, r.order, cut) else own == own0)
  }

  lemma AdmittedTrades(side: Side, levels: Levels, orders: Orders, locs: Locations, o: Order, trades: seq<Trade>)
    requires LevelsOk(side, levels, orders, locs) && side == Opposite(o.side) && o.id !in locs
    requires Admits(o, levels, orders)
    requires Known(orders[o.id := o], Queue(side, levels))
    requires trades == Match(orders[o.id := o], Queue(side, levels), o, o.remaining)
    ensures o.postOnly ==> trades == []
    ensures forall i :: 0 <= i < |trades| ==> trades[i].makerAccount != o.account
  {
    forall i | 0 <= i < |trades| ensures trades[i].makerAccount != o.account && !o.postOnly {
      NoSelfTrades(side, levels, orders, locs, o, i);
      MatchServesInOrder(orders[o.id := o], Queue(side, levels), o, o.remaining, i);
      QueueRests(side, levels, orders, locs, i);
    }
    assert |trades| > 0 ==> trades[0].makerAccount != o.account && !o.postOnly;
  }

  /** What an admitted order's execution reports. */
  lemma AdmittedReports(levels: Levels, before: Orders, locs: Locations, o: Order, orders: Orders, r: Submitted,
                        remaining: nat, between: Orders)
    requires LevelsOk(Opposite(o.side), levels, before, locs) && o.id !in locs && Admits(o, levels, before)
    requires Known(before[o.id := o], Queue(Opposite(o.side), levels))
    requires r.trades == Match(before[o.id := o], Queue(Opposite(o.side), levels), o, o.remaining)
    requires Volume(r.trades) + remaining == o.remaining && r.order == Settled(o, remaining, r.trades != [])
    requires between == ApplyTrades(before[o.id := o], r.trades) && orders == between[o.id := r.order]
    requires UpdatesAre(r.trades, r.makerUpdates, between)
    ensures Reports(o, before, orders, r)
  {
    AdmittedTrades(Opposite(o.side), levels, before, locs, o, r.trades);
    SubmitAccounts(Opposite(o.side), levels, before, locs, o, r, remaining, between);
  }

  class Book {
    var bids: Levels
    var asks: Levels
    var locations: Locations
    var orders: Orders

    constructor ()
      ensures Valid() && bids == map[] && asks == map[] && locations == map[] && orders == map[]
    {
      bids, asks, locations, orders := map[], map[], map[], map[];
    }

    function SideLevels(side: Side): (l: Levels)
      reads this
    {
      if side == Buy then bids else asks
    }

    ghost function QueueOf(side: Side): (q: seq<Id>)
      reads this
    {
      Queue(side, SideLevels(side))
    }

    ghost predicate Valid()
      reads this
    {
      BookOk(Buy, bids, asks, orders, locations)
    }

    lemma FromEitherSide(side: Side)
      ensures Valid() <==> BookOk(side, SideLevels(side), SideLevels(Opposite(side)), orders, locations)
    {
    }

    method SetLevels(side: Side, levels: Levels)
      modifies this`bids, this`asks
      ensures SideLevels(side) == levels && SideLevels(Opposite(side)) == old(SideLevels(Opposite(side)))
    {
      if side == Buy {
        bids := levels;
      } else {
        asks := levels;
      }
    }

    /** `apply_maker_fill` on the front of the best level. */
    method ApplyMakerFill(side: Side, p: nat, fill: nat) returns (after: Order)
      requires Valid() && IsBest(side, SideLevels(side), p) && SideLevels(side)[p] != []
      requires SideLevels(side)[p][0] in orders
      requires 0 < fill <= orders[SideLevels(side)[p][0]].remaining
      modifies this
      ensures Valid() && SideLevels(Opposite(side)) == old(SideLevels(Opposite(side)))
      ensures
        var t := Touch(old(SideLevels(side)), old(orders), old(locations), p, fill);
        SideLevels(side) == t.levels && orders == t.orders && locations == t.locs
      ensures old(SideLevels(side))[p][0] in orders && after == orders[old(SideLevels(side))[p][0]]
    {
      var levels := SideLevels(side);
      var id := levels[p][0];
      FromEitherSide(side);
      TouchBook(side, levels, SideLevels(Opposite(side)), orders, locations, p, fill);
      ghost var t := Touch(levels, orders, locations, p, fill);
      var maker := orders[id];
      maker := maker.(remaining := maker.remaining - fill);
      maker := maker.(status := if maker.remaining == 0 then Filled else PartiallyFilled);
      orders := orders[id := maker];
      if maker.remaining == 0 {
        SetLevels(side, PopLevel(levels, p));
        locations := locations - {id};
      }
      assert orders == t.orders && locations == t.locs && SideLevels(side) == t.levels;
      FromEitherSide(side);
      return maker;
    }

    /** The matching loop of `submit`: the book behaves as the opposite queue. */
    method MatchTaker(taker: Order) returns (remaining: nat, trades: seq<Trade>, updates: seq<Order>)
      requires Valid() && taker.id in orders && taker.id !in locations
      modifies this
      ensures Valid() && SideLevels(taker.side) == old(SideLevels(taker.side))
      ensures Matched(old(orders), old(QueueOf(Opposite(taker.side))), taker, remaining, trades,
                      QueueOf(Opposite(taker.side)))
      ensures remaining > 0 ==> OutOfReach(taker, SideLevels(Opposite(taker.side)))
      ensures OrderProgress(orders, locations, taker, remaining, trades, old(orders))
      ensures UpdatesOk(trades, updates, orders, locations, remaining)
    {
      ghost var side := Opposite(taker.side);
      remaining, trades, updates := taker.remaining, [], [];
      ghost var orders0, queue0 := orders, QueueOf(side);
      FromEitherSide(side);
      QueueKnown(side, SideLevels(side), orders, locations);
      MatchBegins(queue0, orders, locations, taker);
      var more := remaining > 0;
      while more
        invariant Looping(taker, remaining, trades, updates, orders0, queue0)
        invariant SideLevels(taker.side) == old(SideLevels(taker.side))
        invariant !more ==> Spent(taker, remaining)
        invariant more ==> remaining > 0
        decreases remaining, more
      {
        more, remaining, trades, updates := MatchOnce(taker, remaining, trades, updates, orders0, queue0);
      }
      MatchDone(QueueOf(side), orders, taker, remaining, trades, orders0, queue0);
      FromEitherSide(side);
    }

    /** The taker has no size left, or no price on the other side is in reach. */
    ghost predicate Spent(taker: Order, remaining: nat)
      reads this
    {
      var side := Opposite(taker.side);
      && Known(orders, QueueOf(side)) && Match(orders, QueueOf(side), taker, remaining) == []
      && (remaining == 0 || OutOfReach(taker, SideLevels(side)))
    }

    /** What holds at the head of the matching loop. */
    ghost predicate Looping(taker: Order, remaining: nat, trades: seq<Trade>, updates: seq<Order>, orders0: Orders,
                            queue0: seq<Id>)
      reads this
    {
      var side := Opposite(taker.side);
      && BookOk(side, SideLevels(side), SideLevels(taker.side), orders, locations)
      && MatchProgress(Queue(side, SideLevels(side)), orders, taker, remaining, trades, orders0, queue0)
      && OrderProgress(orders, locations, taker, remaining, trades, orders0)
      && UpdatesOk(trades, updates, orders, locations, remaining)
    }

    /** One turn of the matching loop: a trade with the front of the best level, or a stop. */
    method MatchOnce(taker: Order, remaining: nat, trades: seq<Trade>, updates: seq<Order>, ghost orders0: Orders,
                     ghost queue0: seq<Id>)
      returns (more: bool, remaining2: nat, trades2: seq<Trade>, updates2: seq<Order>)
      requires Looping(taker, remaining, trades, updates, orders0, queue0) && remaining > 0
      modifies this
      ensures Looping(taker, remaining2, trades2, updates2, orders0, queue0)
      ensures SideLevels(taker.side) == old(SideLevels(taker.side))
      ensures more ==> 0 < remaining2 < remaining
      ensures !more ==> remaining2 <= remaining && Spent(taker, remaining2)
    {
      var side := Opposite(taker.side);
      var levels := SideLevels(side);
      var best := FirstPrice(side, levels);
      if best.None? || !Crosses(taker.side, best.value, taker.price) {
        NoMatch(side, levels, orders, locations, taker, remaining);
        return false, remaining, trades, updates;
      }
      var p := best.value;
      LoopStep(side, Touched(levels, orders, locations), p, taker, remaining, trades, updates, orders0, queue0);
      var maker := orders[levels[p][0]];
      var fill := Min(remaining, maker.remaining);
      FromEitherSide(side);
      var after := ApplyMakerFill(side, p, fill);
      FromEitherSide(side);
      return remaining > fill, remaining - fill, trades + [TradeOf(maker, taker, fill)], updates + [after];
    }

    /** `rest_order`, and the final store of the order. */
    method Rest(o: Order) returns (ghost cut: nat)
      requires Valid() && 0 < o.remaining && o.id !in locations && OutOfReach(o, SideLevels(Opposite(o.side)))
      modifies this
      ensures Valid() && SideLevels(Opposite(o.side)) == old(SideLevels(Opposite(o.side)))
      ensures orders == old(orders)[o.id := o] && locations == old(locations)[o.id := Location(o.side, o.price)]
      ensures Known(old(orders), old(QueueOf(o.side)))
      ensures Inserted(o.side, old(orders), old(QueueOf(o.side)), QueueOf(o.side), o, cut)
    {
      FromEitherSide(o.side);
      RestBook(SideLevels(o.side), SideLevels(Opposite(o.side)), orders, locations, o);
      cut := RestInserts(o.side, SideLevels(o.side), orders, locations, o);
      SetLevels(o.side, PushLevel(SideLevels(o.side), o.price, o.id));
      locations := locations[o.id := Location(o.side, o.price)];
      orders := orders[o.id := o];
      FromEitherSide(o.side);
    }

    /** Store an order that does not rest. */
    method Store(o: Order)
      requires Valid() && o.id !in locations
      modifies this`orders
      ensures Valid() && orders == old(orders)[o.id := o]
    {
      orders := orders[o.id := o];
    }

    /** After matching: the remainder of a good-till-cancelled order rests, any other is cut off. */
    method Settle(order: Order, remaining: nat, traded: bool) returns (final: Order, ghost cut: nat)
      requires Valid() && order.id !in locations
      requires remaining > 0 ==> OutOfReach(order, SideLevels(Opposite(order.side)))
      modifies this
      ensures Valid() && SideLevels(Opposite(order.side)) == old(SideLevels(Opposite(order.side)))
      ensures final == Settled(order, remaining, traded) && orders == old(orders)[order.id := final]
      ensures Known(old(orders), old(QueueOf(order.side)))
      ensures if StillRests(order, remaining)
              then Inserted(order.side, old(orders), old(QueueOf(order.side)), QueueOf(order.side), final, cut)
              else SideLevels(order.side) == old(SideLevels(order.side)) && locations == old(locations)
      ensures order.id in locations <==> 0 < remaining && order.timeInForce == Gtc
    {
      cut := 0;
      FromEitherSide(order.side);
      QueueKnown(order.side, SideLevels(order.side), orders, locations);
      final := order.(remaining := remaining);
      final := final.(status :=
        if remaining == 0 then Filled else if remaining < order.size then PartiallyFilled else OpenOrder);
      if remaining > 0 && order.timeInForce == Gtc {
        cut := Rest(final);
      } else {
        if remaining > 0 {
          final := final.(remaining := 0, status := if traded then PartiallyFilled else CancelledOrder);
        }
        Store(final);
      }
    }

    /** The rest of `submit` once an order is admitted. */
    method Execute(order: Order) returns (r: Submitted, ghost remaining: nat, ghost cut: nat, ghost between: Orders)
      requires Valid() && order.id !in locations && 0 < order.remaining && order.status == OpenOrder
      modifies this
      ensures Valid()
      ensures
        var other := Opposite(order.side);
        Executed(order, old(orders)[order.id := order], old(QueueOf(order.side)), old(QueueOf(other)),
                 orders, QueueOf(order.side), QueueOf(other), r, remaining, cut, between)
      ensures order.id in locations <==> Volume(r.trades) < order.remaining && order.timeInForce == Gtc
    {
      Store(order);
      var left, trades, updates := MatchTaker(order);
      remaining, between := left, orders;
      var final;
      final, cut := Settle(order, left, trades != []);
      r := Submitted(final, trades, updates);
    }

    /** Keep a refused order on record; the levels do not change, but a resting order's record is overwritten. */
    method Refuse(order: Order, e: BookError) returns (r: Result<Submitted, BookError>)
      requires Valid() && 0 < order.remaining
      modifies this`orders
      ensures Valid() <==> SamePlace(locations, order)
      ensures r == Err(e) && orders == old(orders)[order.id := order.(status := RejectedOrder)]
    {
      var rejected := order.(status := RejectedOrder);
      if order.id in locations {
        ghost var side := locations[order.id].side;
        FromEitherSide(side);
        OverwriteKeepsIff(side, SideLevels(side), SideLevels(Opposite(side)), orders, locations, rejected);
        orders := orders[order.id := rejected];
        FromEitherSide(side);
      } else {
        Store(rejected);
      }
      return Err(e);
    }

    /**
     * `submit`. An admitted order trades exactly as against the other side's price-time queue, never
     * with its own account and not at all if post-only; its remainder rests behind its equals or is cut off.
     * A refused one leaves the book valid unless it overwrites an order resting elsewhere.
     */
    method Submit(order: Order)
      returns (r: Result<Submitted, BookError>, ghost remaining: nat, ghost cut: nat, ghost between: Orders)
      requires Valid()
      requires order.id in locations ==> !Admits(order, SideLevels(Opposite(order.side)), orders)
      modifies this
      ensures Valid() <==> SamePlace(old(locations), order) || (r.Err? && (r.error.ZeroPrice? || r.error.ZeroSize?))
      ensures r.Ok? <==> Admits(order, old(SideLevels(Opposite(order.side))), old(orders))
      ensures r.Err? ==> Refusal(order, old(SideLevels(Opposite(order.side))), old(orders)) == Some(r.error)
      ensures r.Err? ==>
        && bids == old(bids) && asks == old(asks) && locations == old(locations)
        && orders == if r.error.ZeroPrice? || r.error.ZeroSize? then old(orders)
                     else old(orders)[order.id := order.(status := RejectedOrder)]
      ensures r.Ok? ==>
        (order.id in locations <==> Volume(r.value.trades) < order.remaining && order.timeInForce == Gtc)
      ensures r.Ok? ==>
        var taker, other := order.(status := OpenOrder), Opposite(order.side);
        && Executed(taker, old(orders)[order.id := taker], old(QueueOf(order.side)), old(QueueOf(other)),
                    orders, QueueOf(order.side), QueueOf(other), r.value, remaining, cut, between)
        && Reports(order, old(orders), orders, r.value)
    {
      remaining, cut, between := 0, 0, orders;
      if order.price == 0 {
        return Err(ZeroPrice), remaining, cut, between;
      }
      if order.size == 0 || order.remaining == 0 {
        return Err(ZeroSize), remaining, cut, between;
      }
      if order.timeInForce == Fok {
        r := Refuse(order, UnsupportedFok);
        return;
      }
      var side := Opposite(order.side);
      var best := FirstPrice(side, SideLevels(side));
      if order.postOnly && best.Some? && Crosses(order.side, best.value, order.price) {
        r := Refuse(order, PostOnlyWouldMatch);
        return;
      }
      var own := WouldSelfTrade(SideLevels(side), orders, order);
      if own {
        r := Refuse(order, SelfTrade);
        return;
      }
      r, remaining, cut, between := ExecuteAdmitted(order);
    }

    method ExecuteAdmitted(order: Order)
      returns (r: Result<Submitted, BookError>, ghost remaining: nat, ghost cut: nat, ghost between: Orders)
      requires Valid() && order.id !in locations
      requires Admits(order, SideLevels(Opposite(order.side)), orders)
      modifies this
      ensures Valid() && r.Ok?
      ensures order.id in locations <==> Volume(r.value.trades) < order.remaining && order.timeInForce == Gtc
      ensures
        var taker, other := order.(status := OpenOrder), Opposite(order.side);
        && Executed(taker, old(orders)[order.id := taker], old(QueueOf(order.side)), old(QueueOf(other)),
                    orders, QueueOf(order.side), QueueOf(other), r.value, remaining, cut, between)
        && Reports(order, old(orders), orders, r.value)
    {
      var taker := order.(status := OpenOrder);
      ghost var side := Opposite(order.side);
      ghost var levels, before, locs := SideLevels(side), orders, locations;
      FromEitherSide(side);
      var submitted;
      submitted, remaining, cut, between := Execute(taker);
      OpeningAdmits(order, levels, before);
      AdmittedReports(levels, before, locs, taker, orders, submitted, remaining, between);
      OpeningReports(order, before, orders, submitted);
      return Ok(submitted), remaining, cut, between;
    }

    /** `cancel`: the order leaves its queue and every other keeps its place. */
    method Cancel(id: Id) returns (r: Result<Order, BookError>)
      requires Valid()
      modifies this
      ensures Valid()
      ensures r.Err? <==> id !in old(locations)
      ensures r.Err? ==> r.error == OrderNotOpen && bids == old(bids) && asks == old(asks)
      ensures r.Err? ==> locations == old(locations) && orders == old(orders)
      ensures r.Ok? ==>
        var side := old(locations)[id].side;
        && QueueOf(side) == Removed(old(QueueOf(side)), id) && QueueOf(Opposite(side)) == old(QueueOf(Opposite(side)))
        && id in old(orders) && r.value == old(orders)[id].(status := CancelledOrder, remaining := 0)
        && orders == old(orders)[id := r.value] && locations == old(locations) - {id}
    {
      if id !in locations {
        return Err(OrderNotOpen);
      }
      var at := locations[id];
      var levels := SideLevels(at.side);
      FromEitherSide(at.side);
      CancelRemoves(at.side, levels, orders, locations, id);
      var cancelled := orders[id].(status := CancelledOrder, remaining := 0);
      CancelBook(at.side, levels, SideLevels(Opposite(at.side)), orders, locations, id, cancelled);
      locations := locations - {id};
      SetLevels(at.side, DropFromLevel(levels, at.price, id));
      orders := orders[id := cancelled];
      FromEitherSide(at.side);
      return Ok(cancelled);
    }
  }
}
