/** The subscriber's price ladder, built from the feed alone. */
module Ladders {
  import opened Types
  import opened Matcher
  import opened MatcherLaws
  import opened BookLaws
  import opened Conservation
  import opened Events
  import opened Mirrors
  import opened BookMirrors

  datatype L2Action = Add | Modify | Delete

  datatype Msg =
    | SnapshotStart(feedSeq: int, count: int)
    | SnapshotEnd(feedSeq: int)
    | L3Order(feedSeq: int, action: UpdateAction, order: Order)
    | L3Fill(feedSeq: int, passiveId: int, tradeId: int, price: int, quantity: int, remaining: int)
    | TradeTick(feedSeq: int, trade: Trade)
    | L2Delta(feedSeq: int, side: Side, l2: L2Action, price: int, total: int, orders: int)

  datatype LevelAgg = LevelAgg(qty: int, orders: int)

  type Rungs = map<int, LevelAgg>

  datatype Depth = Depth(bids: Rungs, asks: Rungs, inBurst: bool)

  const Blank := Depth(map[], map[], false)

  function RungsOf(d: Depth, side: Side): Rungs {
    if side.Buy? then d.bids else d.asks
  }

  function WithRungs(d: Depth, side: Side, r: Rungs): Depth {
    if side.Buy? then d.(bids := r) else d.(asks := r)
  }

  function RungOr(r: Rungs, price: int): LevelAgg {
    if price in r then r[price] else LevelAgg(0, 0)
  }

  // One feed message folded into the ladder.
  function Fold(d: Depth, m: Msg): Depth {
    match m
    case SnapshotStart(_, _) => Depth(map[], map[], true)
    case SnapshotEnd(_) => d.(inBurst := false)
    case L3Order(_, action, x) =>
      if !d.inBurst || !action.Rested? then d
      else
        var was := RungOr(RungsOf(d, x.side), x.price);
        WithRungs(d, x.side, RungsOf(d, x.side)[x.price := LevelAgg(was.qty + x.remaining, was.orders + 1)])
    case L2Delta(_, side, l2, price, total, orders) =>
      if l2.Delete? then WithRungs(d, side, RungsOf(d, side) - {price})
      else WithRungs(d, side, RungsOf(d, side)[price := LevelAgg(total, orders)])
    case L3Fill(_, _, _, _, _, _) => d
    case TradeTick(_, _) => d
  }

  function FoldAll(d: Depth, ms: seq<Msg>): Depth {
    if ms == [] then d else Fold(FoldAll(d, ms[..|ms| - 1]), ms[|ms| - 1])
  }

  lemma FoldSnoc(d: Depth, ms: seq<Msg>, m: Msg)
    ensures FoldAll(d, ms + [m]) == Fold(FoldAll(d, ms), m)
  {
    assert (ms + [m])[..|ms|] == ms;
  }

  /** The ladder object does to its maps what `Fold` does to a depth. */
  class Ladder {
    var bids: Rungs
    var asks: Rungs
    var inBurst: bool
    var recent: seq<Trade>
    var tradeCount: nat

    ghost function Shown(): Depth
      reads this
    {
      Depth(bids, asks, inBurst)
    }

    constructor ()
      ensures Shown() == Blank && recent == [] && tradeCount == 0
    {
      bids, asks, inBurst, recent, tradeCount := map[], map[], false, [], 0;
    }

    method OnSnapshotStart(feedSeq: int, count: int)
      modifies this
      ensures Shown() == Fold(old(Shown()), SnapshotStart(feedSeq, count))
      ensures recent == old(recent) && tradeCount == old(tradeCount)
    {
      inBurst := true;
      bids, asks := map[], map[];
    }

    method OnSnapshotEnd(feedSeq: int)
      modifies this
      ensures Shown() == Fold(old(Shown()), SnapshotEnd(feedSeq))
      ensures recent == old(recent) && tradeCount == old(tradeCount)
    {
      inBurst := false;
    }

    method OnL3Order(feedSeq: int, action: UpdateAction, x: Order)
      modifies this
      ensures Shown() == Fold(old(Shown()), L3Order(feedSeq, action, x))
      ensures recent == old(recent) && tradeCount == old(tradeCount)
    {
      if !inBurst || !action.Rested? {
        return;
      }
      if x.side.Buy? {
        var agg := RungOr(bids, x.price);
        bids := bids[x.price := LevelAgg(agg.qty + x.remaining, agg.orders + 1)];
      } else {
        var agg := RungOr(asks, x.price);
        asks := asks[x.price := LevelAgg(agg.qty + x.remaining, agg.orders + 1)];
      }
    }

    method OnL2Delta(feedSeq: int, side: Side, l2: L2Action, price: int, total: int, orders: int)
      modifies this
      ensures Shown() == Fold(old(Shown()), L2Delta(feedSeq, side, l2, price, total, orders))
      ensures recent == old(recent) && tradeCount == old(tradeCount)
    {
      if side.Buy? {
        bids := if l2.Delete? then bids - {price} else bids[price := LevelAgg(total, orders)];
      } else {
        asks := if l2.Delete? then asks - {price} else asks[price := LevelAgg(total, orders)];
      }
    }

    // The last fifty trades are kept.
    method OnTrade(feedSeq: int, t: Trade)
      requires |recent| <= 50
      modifies this
      ensures Shown() == Fold(old(Shown()), TradeTick(feedSeq, t))
      ensures |recent| <= 50 && tradeCount == old(tradeCount) + 1
      ensures recent == var all := old(recent) + [t]; if |all| > 50 then all[|all| - 50..] else all
    {
      recent := recent + [t];
      while |recent| > 50
        invariant Shown() == old(Shown()) && tradeCount == old(tradeCount)
        invariant var all := old(recent) + [t];
          recent == all || (|all| == 51 && recent == all[1..])
        decreases |recent|
      {
        recent := recent[1..];
      }
      tradeCount := tradeCount + 1;
    }

    // One message off the feed, by its type.
    method OnMessage(m: Msg)
      requires |recent| <= 50
      modifies this
      ensures Shown() == Fold(old(Shown()), m) && |recent| <= 50
    {
      match m {
        case SnapshotStart(n, count) => OnSnapshotStart(n, count);
        case SnapshotEnd(n) => OnSnapshotEnd(n);
        case L3Order(n, action, x) => OnL3Order(n, action, x);
        case L2Delta(n, side, l2, price, total, orders) => OnL2Delta(n, side, l2, price, total, orders);
        case L3Fill(_, _, _, _, _, _) =>
        case TradeTick(n, t) => OnTrade(n, t);
      }
    }

    /** A subscriber that takes the messages one by one shows what they fold to. */
    method OnFeed(ms: seq<Msg>)
      requires |recent| <= 50
      modifies this
      ensures Shown() == FoldAll(old(Shown()), ms) && |recent| <= 50
    {
      var i := 0;
      while i < |ms|
        invariant 0 <= i <= |ms| && |recent| <= 50 && Shown() == FoldAll(old(Shown()), ms[..i])
      {
        FoldSnoc(old(Shown()), ms[..i], ms[i]);
        assert ms[..i + 1] == ms[..i] + [ms[i]];
        OnMessage(ms[i]);
        i := i + 1;
      }
      assert ms[..i] == ms;
    }
  }

  // ---------------------------------------------------------------------------------------------
  // What the ladder should show
  // ---------------------------------------------------------------------------------------------

  // The orders the mirror has at one price, oldest first.
  function QueueAt(m: Mirror, side: Side, price: int): seq<Order> {
    AtPrice(ListOf(m, side), price)
  }

  function AggOf(q: seq<Order>): Option<LevelAgg> {
    if q == [] then None else Some(LevelAgg(SumRemaining(q), |q|))
  }

  function RungAt(d: Depth, side: Side, price: int): Option<LevelAgg> {
    if price in RungsOf(d, side) then Some(RungsOf(d, side)[price]) else None
  }

  /** Level by level, the total quantity and the number of orders are the mirror's. */
  ghost predicate Shows(d: Depth, m: Mirror) {
    && !d.inBurst
    && forall side, price {:trigger RungAt(d, side, price)} :: RungAt(d, side, price) == AggOf(QueueAt(m, side, price))
  }

  // ---------------------------------------------------------------------------------------------
  // One event moves one level, and never its count alone
  // ---------------------------------------------------------------------------------------------

  ghost predicate Sane(m: Mirror) {
    Positive(m.bids) && Positive(m.asks) && PriceSorted(Buy, m.bids) && PriceSorted(Sell, m.asks)
  }

  // An order is only ever taken out at the place the mirror has it.
  predicate PlacedAt(m: Mirror, id: int, side: Side, price: int) {
    id !in m.index || m.index[id] == Location(side, price)
  }

  // What the matching thread guarantees of every event it publishes.
  ghost predicate WellFormed(m: Mirror, e: Event) {
    match e
    case TradeEvent(t, _) => t.quantity > 0 && PlacedAt(m, t.passiveId, Opposite(t.aggressorSide), t.price)
    case StatusEvent(_, _, _) => true
    case OrderUpdate(action, x, _, _) =>
      match action
      case Rested => x.remaining > 0
      case Cancelled => PlacedAt(m, x.id, x.side, x.price)
      case Replaced => PlacedAt(m, x.id, x.side, x.price)
      case NotRested => true
  }

  // The level the publisher looks at after an event.
  function PlaceOf(e: Event): Location {
    match e
    case TradeEvent(t, _) => Location(Opposite(t.aggressorSide), t.price)
    case StatusEvent(_, _, _) => Location(Buy, 0)
    case OrderUpdate(_, x, _, _) => Location(x.side, x.price)
  }

  // Only level `at` may have changed, and if it did, so did its total.
  ghost predicate Moves(m: Mirror, m': Mirror, at: Location) {
    && (forall side, price {:trigger QueueAt(m', side, price)} ::
          Location(side, price) != at ==> QueueAt(m', side, price) == QueueAt(m, side, price))
    && (SumRemaining(QueueAt(m', at.side, at.price)) == SumRemaining(QueueAt(m, at.side, at.price)) ==>
          QueueAt(m', at.side, at.price) == QueueAt(m, at.side, at.price))
  }

  lemma {:induction false} AtPositive(s: seq<Order>, price: int)
    requires Positive(s)
    ensures Positive(AtPrice(s, price))
  {
    if s != [] {
      AtPositive(s[1..], price);
    }
  }

  lemma AddedMoves(m: Mirror, x: Order)
    requires Sane(m) && x.remaining > 0
    ensures Moves(m, Added(m, x), Location(x.side, x.price)) && Sane(Added(m, x))
  {
    hide AtPrice, Insert, PriceSorted, SumRemaining;
    var m', s := Added(m, x), ListOf(m, x.side);
    forall side, price ensures QueueAt(m', side, price)
      == QueueAt(m, side, price) + if Location(side, price) == Location(x.side, x.price) then [x] else []
    {
      AtInsert(x.side, s, x, price);
    }
    SumSnoc(AtPrice(s, x.price), x);
    SortedInsert(x.side, s, x);
    PositiveInsert(s, x);
  }

  lemma PositiveInsert(s: seq<Order>, x: Order)
    requires Positive(s) && x.remaining > 0
    ensures Positive(Insert(s, x))
  {
    hide Insert;
    InsertIs(s, x);
  }

  lemma ErasedMoves(m: Mirror, id: int, side: Side, price: int)
    requires Sane(m) && PlacedAt(m, id, side, price)
    ensures Moves(m, Erased(m, id), Location(side, price)) && Sane(Erased(m, id))
  {
    hide AtPrice, PriceSorted, SumRemaining, RemoveFrom, Remove, Find;
    if id in m.index {
      var m', s := Erased(m, id), ListOf(m, side);
      forall sd, p ensures QueueAt(m', sd, p)
        == if Location(sd, p) == Location(side, price) then Remove(QueueAt(m, side, price), id) else QueueAt(m, sd, p)
      {
        AtRemove(s, price, id, p);
      }
      AtPositive(s, price);
      RemoveTells(AtPrice(s, price), id);
      SortedRemove(side, s, price, id);
      PositiveRemove(s, price, id);
    }
  }

  lemma RemoveTells(q: seq<Order>, id: int)
    requires Positive(q)
    ensures SumRemaining(Remove(q, id)) == SumRemaining(q) ==> Remove(q, id) == q
  {
    hide Find;
    SumRemove(q, id);
  }

  lemma PositiveRemove(s: seq<Order>, price: int, id: int)
    requires Positive(s)
    ensures Positive(RemoveFrom(s, price, id))
  {
    hide FindAt;
  }

  lemma ReducedMoves(m: Mirror, id: int, quantity: int, side: Side, price: int)
    requires Sane(m) && PlacedAt(m, id, side, price) && quantity > 0
    ensures Moves(m, Reduced(m, id, quantity), Location(side, price)) && Sane(Reduced(m, id, quantity))
  {
    hide AtPrice, PriceSorted, SumRemaining, Find, FindAt, Erased;
    if id in m.index {
      var m', s := Reduced(m, id, quantity), ListOf(m, side);
      var k := FindAt(s, price, id);
      if k != -1 && s[k].remaining - quantity <= 0 {
        ErasedMoves(m, id, side, price);
      } else if k != -1 {
        FindAtPrice(s, price, id);
        var q := AtPrice(s, price);
        var j := Find(q, id);
        forall sd, p ensures QueueAt(m', sd, p)
          == if Location(sd, p) == Location(side, price) then q[j := Filled(q[j], quantity)] else QueueAt(m, sd, p)
        {
          AtFill(s, price, id, quantity, p);
        }
        SumReplace(q, j, quantity);
        SortedFill(side, s, k, quantity);
      }
    }
  }

  /** Whatever a well-formed event does to the mirror happens at one level and shows in that level's total. */
  lemma EventMoves(m: Mirror, e: Event)
    requires Sane(m) && WellFormed(m, e)
    ensures Moves(m, Apply(m, e), PlaceOf(e)) && Sane(Apply(m, e))
  {
    hide Sane, Added, Erased, Reduced, QueueAt, SumRemaining;
    match e
    case TradeEvent(t, _) =>
      ReducedMoves(m, t.passiveId, t.quantity, Opposite(t.aggressorSide), t.price);
      MovesCounters(m, Reduced(m, t.passiveId, t.quantity), PlaceOf(e));
    case StatusEvent(_, _, _) =>
    case OrderUpdate(action, x, _, _) =>
      MovesCounters(m, m, PlaceOf(e));
      var m' := if x.arrival > m.lastSeq then m.(lastSeq := x.arrival) else m;
      SaneCounters(m, m');
      match action {
        case Rested => AddedMoves(m', x); MovesFrom(m, m', Added(m', x), PlaceOf(e));
        case Cancelled => ErasedMoves(m', x.id, x.side, x.price); MovesFrom(m, m', Erased(m', x.id), PlaceOf(e));
        case Replaced => ErasedMoves(m', x.id, x.side, x.price); MovesFrom(m, m', Erased(m', x.id), PlaceOf(e));
        case NotRested =>
      }
  }

  lemma SaneCounters(m: Mirror, m': Mirror)
    requires Sane(m) && m'.bids == m.bids && m'.asks == m.asks
    ensures Sane(m')
  {
  }

  // The counters are no part of any queue.
  lemma MovesCounters(m: Mirror, m': Mirror, at: Location)
    ensures Moves(m, m', at) ==> forall last, trades :: Moves(m, m'.(lastSeq := last, tradeCount := trades), at)
    ensures Sane(m') ==> forall last, trades :: Sane(m'.(lastSeq := last, tradeCount := trades))
  {
    hide AtPrice, SumRemaining, Positive, PriceSorted;
    forall last, trades | Moves(m, m', at) ensures Moves(m, m'.(lastSeq := last, tradeCount := trades), at) {
      var m2 := m'.(lastSeq := last, tradeCount := trades);
      forall side, price ensures QueueAt(m2, side, price) == QueueAt(m', side, price) {
      }
    }
  }

  lemma MovesFrom(m: Mirror, m1: Mirror, m2: Mirror, at: Location)
    requires Moves(m1, m2, at) && m1.bids == m.bids && m1.asks == m.asks
    ensures Moves(m, m2, at)
  {
    hide AtPrice, SumRemaining;
    forall side, price ensures QueueAt(m1, side, price) == QueueAt(m, side, price) {
    }
  }
}
