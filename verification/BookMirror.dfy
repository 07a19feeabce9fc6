/** The mirror as it is stored: two maps from price to a queue of orders, and an index from id to place. */
module BookMirrors {
  import opened Types
  import opened Matcher
  import opened MatcherLaws
  import opened BookLaws
  import opened Conservation
  import opened Events
  import opened Mirrors

  // ---------------------------------------------------------------------------------------------
  // A priority list, seen price by price
  // ---------------------------------------------------------------------------------------------

  function AtPrice(s: seq<Order>, price: int): seq<Order> {
    if s == [] then []
    else if s[0].price == price then [s[0]] + AtPrice(s[1..], price)
    else AtPrice(s[1..], price)
  }

  lemma {:induction false} AtConcat(a: seq<Order>, b: seq<Order>, price: int)
    ensures AtPrice(a + b, price) == AtPrice(a, price) + AtPrice(b, price)
  {
    if a == [] {
      assert a + b == b;
    } else {
      AtConcat(a[1..], b, price);
      assert (a + b)[1..] == a[1..] + b;
    }
  }

  lemma {:induction false} AtNone(s: seq<Order>, price: int)
    requires forall i :: 0 <= i < |s| ==> s[i].price != price
    ensures AtPrice(s, price) == []
  {
    if s != [] {
      AtNone(s[1..], price);
    }
  }

  // The newcomer joins the back of its own price's queue and no other.
  lemma AtInsert(side: Side, s: seq<Order>, x: Order, price: int)
    requires PriceSorted(side, s) && x.side == side
    ensures AtPrice(Insert(s, x), price) == if price == x.price then AtPrice(s, price) + [x] else AtPrice(s, price)
  {
    InsertIs(s, x);
    var k := InsertPos(s, x);
    var a, b := s[..k], s[k..];
    AtOne(x, price);
    hide Insert, InsertPos, AtPrice;
    assert s == a + b && Insert(s, x) == a + ([x] + b);
    AtConcat(a, b, price);
    AtConcat([x], b, price);
    AtConcat(a, [x] + b, price);
    if price == x.price {
      forall i | 0 <= i < |b| ensures b[i].price != price {
        assert b[i] == s[k + i] && Better(side, x.price, s[k].price);
        assert i > 0 ==> !Better(side, s[k + i].price, s[k].price);
      }
      AtNone(b, price);
    }
  }

  lemma AtOne(x: Order, price: int)
    ensures AtPrice([x], price) == if price == x.price then [x] else []
  {
  }

  lemma SortedInsert(side: Side, s: seq<Order>, x: Order)
    requires PriceSorted(side, s) && x.side == side
    ensures PriceSorted(side, Insert(s, x))
  {
    hide Insert, InsertPos;
    InsertIs(s, x);
    var k, r := InsertPos(s, x), Insert(s, x);
    forall i, j | 0 <= i < j < |r| ensures !Better(side, r[j].price, r[i].price) {
      assert r[i] == if i < k then s[i] else if i == k then x else s[i - 1];
      assert r[j] == if j < k then s[j] else if j == k then x else s[j - 1];
      assert k < j && j - 1 > k ==> !Better(side, s[j - 1].price, s[k].price);
    }
  }

  // Looking an id up at one price is looking it up in that price's queue.
  lemma {:induction false} FindAtPrice(s: seq<Order>, price: int, id: int)
    ensures var k, j := FindAt(s, price, id), Find(AtPrice(s, price), id);
            (k == -1 <==> j == -1) && (k != -1 ==> s[k] == AtPrice(s, price)[j])
  {
    if s != [] {
      FindAtPrice(s[1..], price, id);
      if s[0].price == price {
        assert AtPrice(s, price)[1..] == AtPrice(s[1..], price);
      }
    }
  }

  lemma {:induction false} AtRemove(s: seq<Order>, price: int, id: int, other: int)
    ensures AtPrice(RemoveFrom(s, price, id), other)
         == if other == price then Remove(AtPrice(s, price), id) else AtPrice(s, other)
  {
    if s != [] {
      AtRemove(s[1..], price, id, other);
      RemoveStep(s, price, id);
      if s[0].price == price {
        QueueStep(s, price, id);
      }
    }
  }

  lemma RemoveStep(s: seq<Order>, price: int, id: int)
    requires s != []
    ensures RemoveFrom(s, price, id)
         == if s[0].price == price && s[0].id == id then s[1..] else [s[0]] + RemoveFrom(s[1..], price, id)
  {
  }

  lemma QueueStep(s: seq<Order>, price: int, id: int)
    requires s != [] && s[0].price == price
    ensures Remove(AtPrice(s, price), id)
         == if s[0].id == id then AtPrice(s[1..], price) else [s[0]] + Remove(AtPrice(s[1..], price), id)
  {
    assert AtPrice(s, price)[1..] == AtPrice(s[1..], price);
  }

  lemma SortedRemove(side: Side, s: seq<Order>, price: int, id: int)
    requires PriceSorted(side, s)
    ensures PriceSorted(side, RemoveFrom(s, price, id))
  {
    hide FindAt;
  }

  lemma {:induction false} AtFill(s: seq<Order>, price: int, id: int, quantity: int, other: int)
    requires FindAt(s, price, id) != -1
    ensures Find(AtPrice(s, price), id) != -1
    ensures var k, q, j := FindAt(s, price, id), AtPrice(s, price), Find(AtPrice(s, price), id);
      AtPrice(s[k := Filled(s[k], quantity)], other) == if other == price then q[j := Filled(q[j], quantity)] else AtPrice(s, other)
  {
    FindAtPrice(s, price, id);
    var k := FindAt(s, price, id);
    var s' := s[k := Filled(s[k], quantity)];
    if k == 0 {
      assert s'[1..] == s[1..];
    } else {
      AtFill(s[1..], price, id, quantity, other);
      assert s'[1..] == s[1..][k - 1 := s'[k]];
      if s[0].price == price {
        assert AtPrice(s, price)[1..] == AtPrice(s[1..], price);
      }
    }
  }

  // ---------------------------------------------------------------------------------------------
  // Levels
  // ---------------------------------------------------------------------------------------------

  type Levels = map<int, seq<Order>>

  // One queue per price that has orders, in list order.
  ghost predicate Holds(levels: Levels, side: Side, s: seq<Order>) {
    && PriceSorted(side, s)
    && forall p {:trigger AtPrice(s, p)} :: LevelIs(levels, p, AtPrice(s, p))
  }

  ghost predicate LevelIs(levels: Levels, price: int, q: seq<Order>) {
    (price in levels <==> q != []) && (price in levels ==> levels[price] == q)
  }

  // An emptied level is dropped from the map.
  function WithQueue(levels: Levels, price: int, q: seq<Order>): Levels {
    if q == [] then levels - {price} else levels[price := q]
  }

  lemma HoldsUpdate(levels: Levels, side: Side, s: seq<Order>, s': seq<Order>, price: int, q: seq<Order>)
    requires Holds(levels, side, s) && PriceSorted(side, s')
    requires forall p :: AtPrice(s', p) == if p == price then q else AtPrice(s, p)
    ensures Holds(WithQueue(levels, price, q), side, s')
  {
    hide PriceSorted;
    forall p ensures LevelIs(WithQueue(levels, price, q), p, AtPrice(s', p)) {
      assert LevelIs(levels, p, AtPrice(s, p));
    }
  }

  lemma HoldsInsert(levels: Levels, s: seq<Order>, x: Order)
    requires Holds(levels, x.side, s)
    ensures LevelIs(levels, x.price, AtPrice(s, x.price))
    ensures Holds(WithQueue(levels, x.price, AtPrice(s, x.price) + [x]), x.side, Insert(s, x))
  {
    hide Insert, PriceSorted;
    SortedInsert(x.side, s, x);
    forall p ensures AtPrice(Insert(s, x), p) == if p == x.price then AtPrice(s, x.price) + [x] else AtPrice(s, p) {
      AtInsert(x.side, s, x, p);
    }
    HoldsUpdate(levels, x.side, s, Insert(s, x), x.price, AtPrice(s, x.price) + [x]);
  }

  lemma HoldsRemove(levels: Levels, side: Side, s: seq<Order>, price: int, id: int)
    requires Holds(levels, side, s)
    ensures LevelIs(levels, price, AtPrice(s, price))
    ensures Holds(WithQueue(levels, price, Remove(AtPrice(s, price), id)), side, RemoveFrom(s, price, id))
  {
    hide PriceSorted, RemoveFrom, Remove;
    SortedRemove(side, s, price, id);
    forall p ensures AtPrice(RemoveFrom(s, price, id), p) == if p == price then Remove(AtPrice(s, price), id) else AtPrice(s, p) {
      AtRemove(s, price, id, p);
    }
    HoldsUpdate(levels, side, s, RemoveFrom(s, price, id), price, Remove(AtPrice(s, price), id));
  }

  lemma HoldsFill(levels: Levels, side: Side, s: seq<Order>, price: int, id: int, quantity: int)
    requires Holds(levels, side, s) && FindAt(s, price, id) != -1
    ensures price in levels && Find(levels[price], id) != -1
    ensures var k, q, j := FindAt(s, price, id), levels[price], Find(levels[price], id);
      && s[k] == q[j]
      && Holds(levels[price := q[j := Filled(q[j], quantity)]], side, s[k := Filled(s[k], quantity)])
  {
    hide PriceSorted, FindAt, Find;
    assert LevelIs(levels, price, AtPrice(s, price));
    FindAtPrice(s, price, id);
    var k, q := FindAt(s, price, id), AtPrice(s, price);
    var j := Find(q, id);
    SortedFill(side, s, k, quantity);
    forall p ensures AtPrice(s[k := Filled(s[k], quantity)], p) == if p == price then q[j := Filled(q[j], quantity)] else AtPrice(s, p) {
      AtFill(s, price, id, quantity, p);
    }
    HoldsUpdate(levels, side, s, s[k := Filled(s[k], quantity)], price, q[j := Filled(q[j], quantity)]);
  }

  lemma SortedFill(side: Side, s: seq<Order>, k: int, quantity: int)
    requires PriceSorted(side, s) && 0 <= k < |s|
    ensures PriceSorted(side, s[k := Filled(s[k], quantity)])
  {
  }

  // ---------------------------------------------------------------------------------------------
  // Walking the levels from best to worst
  // ---------------------------------------------------------------------------------------------

  function Without(s: seq<Order>, price: int): seq<Order> {
    if s == [] then []
    else if s[0].price == price then Without(s[1..], price)
    else [s[0]] + Without(s[1..], price)
  }

  lemma {:induction false} AtWithout(s: seq<Order>, price: int, p: int)
    ensures AtPrice(Without(s, price), p) == if p == price then [] else AtPrice(s, p)
  {
    if s != [] {
      AtWithout(s[1..], price, p);
    }
  }

  ghost predicate NoneBetter(side: Side, s: seq<Order>, price: int) {
    forall i :: 0 <= i < |s| ==> !Better(side, s[i].price, price)
  }

  lemma SortedTail(side: Side, s: seq<Order>, price: int)
    requires s != [] && PriceSorted(side, s) && NoneBetter(side, s, price)
    ensures PriceSorted(side, s[1..]) && NoneBetter(side, s[1..], price)
    ensures s[0].price != price ==> forall i :: 0 <= i < |s| ==> s[i].price != price
  {
  }

  // In a sorted list the orders at the best price come first.
  lemma {:induction false} BestFirst(side: Side, s: seq<Order>, price: int)
    requires PriceSorted(side, s) && NoneBetter(side, s, price)
    ensures s == AtPrice(s, price) + Without(s, price) && PriceSorted(side, Without(s, price))
  {
    if s != [] {
      SortedTail(side, s, price);
      hide PriceSorted, NoneBetter;
      if s[0].price != price {
        AtNone(s, price);
        WithoutNone(s, price);
      } else {
        BestFirst(side, s[1..], price);
        assert s == [s[0]] + s[1..];
      }
    }
  }

  lemma {:induction false} WithoutNone(s: seq<Order>, price: int)
    requires forall i :: 0 <= i < |s| ==> s[i].price != price
    ensures Without(s, price) == s
  {
    if s != [] {
      WithoutNone(s[1..], price);
    }
  }

  lemma {:induction false} AtEvery(s: seq<Order>, i: int)
    requires 0 <= i < |s|
    ensures s[i] in AtPrice(s, s[i].price)
  {
    if i > 0 {
      AtEvery(s[1..], i - 1);
    }
  }

  // The best of finitely many prices.
  lemma {:induction false} BestKey(side: Side, keys: set<int>) returns (best: int)
    requires keys != {}
    ensures best in keys && forall k :: k in keys ==> !Better(side, k, best)
    decreases |keys|
  {
    assert (forall k :: k !in keys) ==> keys == {};
    var some :| some in keys;
    best := some;
    var rest := keys - {some};
    assert forall k :: k in keys ==> k == some || k in rest;
    if rest != {} {
      var other := BestKey(side, rest);
      if Better(side, other, some) {
        best := other;
      }
    }
  }

  // ---------------------------------------------------------------------------------------------
  // The mirror
  // ---------------------------------------------------------------------------------------------

  // What is left of an order, or 0 if the mirror no longer has it.
  function LeftOf(m: Mirror, id: int): int {
    if id !in m.index then 0
    else
      var s, at := ListOf(m, m.index[id].side), m.index[id];
      if FindAt(s, at.price, id) == -1 then 0 else s[FindAt(s, at.price, id)].remaining
  }

  class BookMirror {
    var bids: Levels
    var asks: Levels
    var index: map<int, Location>
    var lastSeq: int
    var tradeCount: int

    // The same contents as two priority lists.
    ghost var view: Mirror

    ghost predicate Valid()
      reads this
    {
      && Holds(bids, Buy, view.bids) && Holds(asks, Sell, view.asks)
      && index == view.index && lastSeq == view.lastSeq && tradeCount == view.tradeCount
    }

    constructor ()
      ensures Valid() && view == Cleared
    {
      bids, asks, index := map[], map[], map[];
      lastSeq, tradeCount := 0, 0;
      view := Cleared;
    }

    method Clear()
      modifies this
      ensures Valid() && view == Cleared
    {
      bids, asks, index := map[], map[], map[];
      lastSeq, tradeCount := 0, 0;
      view := Cleared;
    }

    function LevelsOf(side: Side): Levels
      reads this
    {
      if side.Buy? then bids else asks
    }

    // Store a side's levels together with the list they now stand for.
    method Store(side: Side, levels: Levels, ghost s: seq<Order>)
      requires Valid() && Holds(levels, side, s)
      modifies this
      ensures Valid() && view == WithList(old(view), side, s)
    {
      if side.Buy? {
        bids := levels;
      } else {
        asks := levels;
      }
      view := WithList(view, side, s);
    }

    method SetIndex(ix: map<int, Location>)
      requires Valid()
      modifies this
      ensures Valid() && view == old(view).(index := ix)
    {
      index := ix;
      view := view.(index := ix);
    }

    // The first order with this id in a queue, or -1.
    static method Locate(q: seq<Order>, id: int) returns (k: int)
      ensures k == Find(q, id)
    {
      k := 0;
      while k < |q|
        invariant 0 <= k <= |q|
        invariant forall i :: 0 <= i < k ==> q[i].id != id
      {
        if q[k].id == id {
          FirstFound(q, id, k);
          return;
        }
        k := k + 1;
      }
      return -1;
    }

    method Insert(x: Order)
      requires Valid()
      modifies this
      ensures Valid() && view == Added(old(view), x)
    {
      hide Holds, LevelIs;
      ghost var s := ListOf(view, x.side);
      HoldsInsert(LevelsOf(x.side), s, x);
      var levels := LevelsOf(x.side);
      QueueOr(levels, x.price, AtPrice(s, x.price));
      var q := (if x.price in levels then levels[x.price] else []) + [x];
      Store(x.side, levels[x.price := q], Matcher.Insert(s, x));
      SetIndex(index[x.id := Location(x.side, x.price)]);
    }

    method EraseFrom(at: Location, id: int)
      requires Valid()
      modifies this
      ensures Valid() && view == WithList(old(view), at.side, RemoveFrom(ListOf(old(view), at.side), at.price, id))
    {
      hide Holds, LevelIs, Find, FindAt, PriceSorted;
      ghost var s := ListOf(view, at.side);
      HoldsRemove(LevelsOf(at.side), at.side, s, at.price, id);
      FindAtPrice(s, at.price, id);
      var levels := LevelsOf(at.side);
      QueueOr(levels, at.price, AtPrice(s, at.price));
      if at.price !in levels {
        return;
      }
      var q := levels[at.price];
      var k := Locate(q, id);
      if k != -1 {
        q := q[..k] + q[k + 1..];
      }
      Store(at.side, if q == [] then levels - {at.price} else levels[at.price := q], RemoveFrom(s, at.price, id));
    }

    method Erase(id: int)
      requires Valid()
      modifies this
      ensures Valid() && view == Erased(old(view), id)
    {
      hide Holds, RemoveFrom;
      if id !in index {
        return;
      }
      EraseFrom(index[id], id);
      SetIndex(index - {id});
    }

    method Reduce(id: int, quantity: int)
      requires Valid()
      modifies this
      ensures Valid() && view == Reduced(old(view), id, quantity)
    {
      hide Holds, LevelIs, Find, FindAt;
      if id !in index {
        return;
      }
      var at := index[id];
      ghost var s := ListOf(view, at.side);
      var levels := LevelsOf(at.side);
      FindAtPrice(s, at.price, id);
      HoldsRemove(levels, at.side, s, at.price, id);
      QueueOr(levels, at.price, AtPrice(s, at.price));
      if at.price !in levels {
        EmptyFind(id);
        return;
      }
      var q := levels[at.price];
      var k := Locate(q, id);
      if k == -1 {
        return;
      }
      HoldsFill(levels, at.side, s, at.price, id, quantity);
      if q[k].remaining - quantity <= 0 {
        EraseFrom(at, id);
        SetIndex(index - {id});
      } else {
        Store(at.side, levels[at.price := q[k := Filled(q[k], quantity)]],
              s[FindAt(s, at.price, id) := Filled(q[k], quantity)]);
      }
    }

    method SetCounters(last: int, trades: int)
      requires Valid()
      modifies this
      ensures Valid() && view == old(view).(lastSeq := last, tradeCount := trades)
    {
      lastSeq, tradeCount := last, trades;
      view := view.(lastSeq := last, tradeCount := trades);
    }

    /** `apply`: every event changes the stored maps exactly as it changes the two lists. */
    method Handle(e: Event)
      requires Valid()
      modifies this
      ensures Valid() && view == Apply(old(view), e)
    {
      hide Holds, Added, Erased, Reduced;
      match e {
        case TradeEvent(t, _) =>
          ReducedCounters(view, t.passiveId, t.quantity);
          Reduce(t.passiveId, t.quantity);
          SetCounters(lastSeq, tradeCount + 1);
        case StatusEvent(_, _, _) =>
        case OrderUpdate(action, x, _, _) =>
          if x.arrival > lastSeq {
            SetCounters(x.arrival, tradeCount);
          }
          match action {
            case Rested => Insert(x);
            case Cancelled => Erase(x.id);
            case Replaced => Erase(x.id);
            case NotRested =>
          }
      }
    }

    method LevelTotal(side: Side, price: int) returns (total: int)
      requires Valid()
      ensures total == SumRemaining(AtPrice(ListOf(view, side), price))
    {
      hide Holds, AtPrice;
      var levels := LevelsOf(side);
      HoldsAt(levels, side, ListOf(view, side), price);
      if price !in levels {
        return 0;
      }
      var q, i := levels[price], 0;
      total := 0;
      while i < |q|
        invariant 0 <= i <= |q| && total == SumRemaining(q[..i])
      {
        assert q[..i + 1] == q[..i] + [q[i]];
        SumSnoc(q[..i], q[i]);
        total := total + q[i].remaining;
        i := i + 1;
      }
      assert q[..i] == q;
    }

    method LevelOrderCount(side: Side, price: int) returns (count: nat)
      requires Valid()
      ensures count == |AtPrice(ListOf(view, side), price)|
    {
      hide Holds, AtPrice;
      var levels := LevelsOf(side);
      HoldsAt(levels, side, ListOf(view, side), price);
      count := if price in levels then |levels[price]| else 0;
    }

    // The unfilled quantity of a resting order; 0 once it is gone.
    method RemainingOf(id: int) returns (quantity: int)
      requires Valid()
      ensures quantity == LeftOf(view, id)
    {
      hide Holds, AtPrice, Find, FindAt;
      if id !in index {
        return 0;
      }
      var at := index[id];
      var levels := LevelsOf(at.side);
      HoldsAt(levels, at.side, ListOf(view, at.side), at.price);
      FindAtPrice(ListOf(view, at.side), at.price, id);
      if at.price !in levels {
        EmptyFind(id);
        return 0;
      }
      var k := Locate(levels[at.price], id);
      quantity := if k == -1 then 0 else levels[at.price][k].remaining;
    }

    /** The walk every digest takes, best price first and oldest first within a price, is the priority list. */
    method Walk(side: Side) returns (s: seq<Order>)
      requires Valid()
      ensures s == ListOf(view, side)
    {
      hide PriceSorted, AtPrice, Without;
      var levels := LevelsOf(side);
      var keys := levels.Keys;
      s := [];
      ghost var rest := ListOf(view, side);
      while keys != {}
        invariant s + rest == ListOf(view, side) && PriceSorted(side, rest)
        invariant keys <= levels.Keys
        invariant forall p :: p in keys ==> AtPrice(rest, p) == levels[p]
        invariant forall p :: p !in keys ==> AtPrice(rest, p) == []
        decreases |keys|
      {
        ghost var best := BestKey(side, keys);
        var p :| p in keys && forall k :: k in keys ==> !Better(side, k, p);
        NoBetter(side, rest, keys, p);
        BestFirst(side, rest, p);
        forall q {
          AtWithout(rest, p, q);
        }
        s := s + levels[p];
        rest := Without(rest, p);
        keys := keys - {p};
      }
      AllGone(rest);
    }
  }

  lemma {:induction false} FirstFound(q: seq<Order>, id: int, k: int)
    requires 0 <= k < |q| && q[k].id == id && forall i :: 0 <= i < k ==> q[i].id != id
    ensures Find(q, id) == k
  {
    if k > 0 {
      FirstFound(q[1..], id, k - 1);
    }
  }

  lemma HoldsAt(levels: Levels, side: Side, s: seq<Order>, price: int)
    requires Holds(levels, side, s)
    ensures AtPrice(s, price) == if price in levels then levels[price] else []
  {
    assert LevelIs(levels, price, AtPrice(s, price));
  }

  lemma EmptyFind(id: int)
    ensures Find([], id) == -1
  {
  }

  lemma QueueOr(levels: Levels, price: int, q: seq<Order>)
    requires LevelIs(levels, price, q)
    ensures q == if price in levels then levels[price] else []
  {
  }

  lemma ReducedCounters(m: Mirror, id: int, quantity: int)
    ensures Reduced(m, id, quantity).lastSeq == m.lastSeq && Reduced(m, id, quantity).tradeCount == m.tradeCount
  {
  }

  lemma NoBetter(side: Side, s: seq<Order>, keys: set<int>, price: int)
    requires forall k :: k in keys ==> !Better(side, k, price)
    requires forall p :: p !in keys ==> AtPrice(s, p) == []
    ensures NoneBetter(side, s, price)
  {
    hide AtPrice;
    forall i | 0 <= i < |s| ensures !Better(side, s[i].price, price) {
      AtEvery(s, i);
    }
  }

  lemma AllGone(s: seq<Order>)
    requires forall p :: AtPrice(s, p) == []
    ensures s == []
  {
    if s != [] {
      AtEvery(s, 0);
    }
  }
}
