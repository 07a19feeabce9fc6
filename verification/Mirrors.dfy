/** The subscriber's book, rebuilt from the event stream alone, and why it equals the book. */
module Mirrors {
  import opened Types
  import opened Matcher
  import opened MatcherLaws
  import opened BookLaws
  import opened Verdicts
  import opened Capacity
  import opened Events

  datatype Location = Location(side: Side, price: int)

  // The two sides in priority order, and where the mirror believes each id to rest.
  datatype Mirror = Mirror(bids: seq<Order>, asks: seq<Order>, index: map<int, Location>, lastSeq: int, tradeCount: int)

  const Cleared := Mirror([], [], map[], 0, 0)

  // ---------------------------------------------------------------------------------------------
  // Applying events
  // ---------------------------------------------------------------------------------------------

  function ListOf(m: Mirror, side: Side): seq<Order> {
    if side.Buy? then m.bids else m.asks
  }

  function WithList(m: Mirror, side: Side, s: seq<Order>): Mirror {
    if side.Buy? then m.(bids := s) else m.(asks := s)
  }

  // The first order at `price` with this id, or -1.
  function FindAt(s: seq<Order>, price: int, id: int): (k: int)
    ensures -1 <= k < |s|
    ensures k >= 0 ==> s[k].id == id && s[k].price == price
  {
    if s == [] then -1
    else if s[0].price == price && s[0].id == id then 0
    else
      var k := FindAt(s[1..], price, id);
      if k == -1 then -1 else k + 1
  }

  function RemoveFrom(s: seq<Order>, price: int, id: int): seq<Order> {
    var k := FindAt(s, price, id);
    if k == -1 then s else s[..k] + s[k + 1..]
  }

  function Filled(x: Order, quantity: int): Order {
    x.(remaining := x.remaining - quantity)
  }

  function Added(m: Mirror, x: Order): Mirror {
    WithList(m, x.side, Insert(ListOf(m, x.side), x)).(index := m.index[x.id := Location(x.side, x.price)])
  }

  function Erased(m: Mirror, id: int): Mirror {
    if id !in m.index then m
    else
      var at := m.index[id];
      WithList(m, at.side, RemoveFrom(ListOf(m, at.side), at.price, id)).(index := m.index - {id})
  }

  function Reduced(m: Mirror, id: int, quantity: int): Mirror {
    if id !in m.index then m
    else
      var at := m.index[id];
      var s := ListOf(m, at.side);
      var k := FindAt(s, at.price, id);
      if k == -1 then m
      else if s[k].remaining - quantity <= 0 then Erased(m, id)
      else WithList(m, at.side, s[k := Filled(s[k], quantity)])
  }

  function Apply(m: Mirror, e: Event): Mirror {
    match e
    case TradeEvent(t, _) => Reduced(m, t.passiveId, t.quantity).(tradeCount := m.tradeCount + 1)
    case StatusEvent(_, _, _) => m
    case OrderUpdate(action, x, _, _) =>
      var m' := if x.arrival > m.lastSeq then m.(lastSeq := x.arrival) else m;
      match action
      case Rested => Added(m', x)
      case Cancelled => Erased(m', x.id)
      case Replaced => Erased(m', x.id)
      case NotRested => m'
  }

  function ApplyAll(m: Mirror, es: seq<Event>): Mirror
    decreases |es|
  {
    if es == [] then m else ApplyAll(Apply(m, es[0]), es[1..])
  }

  lemma {:induction false} ApplySplit(m: Mirror, a: seq<Event>, b: seq<Event>)
    ensures ApplyAll(m, a + b) == ApplyAll(ApplyAll(m, a), b)
    decreases |a|
  {
    if a == [] {
      assert a + b == b;
    } else {
      ApplySplit(Apply(m, a[0]), a[1..], b);
      assert (a + b)[1..] == a[1..] + b;
    }
  }

  // ---------------------------------------------------------------------------------------------
  // The mirror of a book
  // ---------------------------------------------------------------------------------------------

  ghost predicate AllOn(side: Side, s: seq<Order>) {
    forall i :: 0 <= i < |s| ==> s[i].side == side
  }

  // Enough order in a book for ids to name its orders; it holds between the events of one command too.
  ghost predicate Listed(b: Book) {
    && AllOn(Buy, b.bids) && AllOn(Sell, b.asks)
    && DistinctIds(b.bids) && DistinctIds(b.asks) && DisjointIds(b.bids, b.asks)
  }

  // The price of the order with this id, if there is one.
  function PriceOf(s: seq<Order>, id: int): Option<int> {
    var k := Find(s, id);
    if k == -1 then None else Some(s[k].price)
  }

  function WhereIs(b: Book, id: int): Option<Location> {
    match PriceOf(b.bids, id)
    case Some(price) => Some(Location(Buy, price))
    case None =>
      match PriceOf(b.asks, id)
      case Some(price) => Some(Location(Sell, price))
      case None => None
  }

  function Entry(index: map<int, Location>, id: int): Option<Location> {
    if id in index then Some(index[id]) else None
  }

  ghost predicate Indexes(index: map<int, Location>, b: Book) {
    forall id {:trigger Entry(index, id)} :: Entry(index, id) == WhereIs(b, id)
  }

  // The mirror holds the same orders in the same places.
  ghost predicate Tracks(m: Mirror, b: Book) {
    m.bids == b.bids && m.asks == b.asks && Indexes(m.index, b) && Listed(b)
  }

  /** The mirror is the book. */
  ghost predicate Agrees(m: Mirror, b: Book) {
    Tracks(m, b) && m.lastSeq == b.lastArrival && m.tradeCount == b.nextTradeId
  }

  // ---------------------------------------------------------------------------------------------
  // One list under one change
  // ---------------------------------------------------------------------------------------------

  lemma {:induction false} FindAtIs(s: seq<Order>, id: int)
    requires DistinctIds(s) && Find(s, id) != -1
    ensures FindAt(s, s[Find(s, id)].price, id) == Find(s, id)
  {
    if s[0].id != id {
      assert forall i, j :: 0 <= i < j < |s| - 1 ==> s[1..][i] == s[i + 1] && s[1..][j] == s[j + 1];
      FindAtIs(s[1..], id);
    }
  }

  lemma FindIs(s: seq<Order>, id: int, k: int)
    requires DistinctIds(s) && 0 <= k < |s| && s[k].id == id
    ensures Find(s, id) == k
  {
    hide Find;
    var j := Find(s, id);
    assert j != -1 && s[j].id == s[k].id;
  }

  lemma PriceAfterRemove(s: seq<Order>, id: int, other: int)
    requires DistinctIds(s)
    ensures DistinctIds(Remove(s, id))
    ensures PriceOf(Remove(s, id), other) == if other == id then None else PriceOf(s, other)
  {
    hide Find;
    var k, r, j := Find(s, id), Remove(s, id), Find(s, other);
    if k != -1 {
      assert forall i :: 0 <= i < |r| ==> r[i] == s[if i < k then i else i + 1];
      if other != id && j != -1 {
        FindIs(r, other, if j < k then j else j - 1);
      }
    }
  }

  lemma PriceAfterFill(s: seq<Order>, k: int, quantity: int, other: int)
    requires DistinctIds(s) && 0 <= k < |s|
    ensures DistinctIds(s[k := Filled(s[k], quantity)])
    ensures PriceOf(s[k := Filled(s[k], quantity)], other) == PriceOf(s, other)
  {
    hide Find;
    var r := s[k := Filled(s[k], quantity)];
    assert forall i :: 0 <= i < |r| ==> r[i].id == s[i].id && r[i].price == s[i].price;
    var j := Find(s, other);
    if j != -1 {
      FindIs(r, other, j);
    }
  }

  lemma PriceAfterInsert(s: seq<Order>, x: Order, other: int)
    requires DistinctIds(s) && Find(s, x.id) == -1
    ensures DistinctIds(Insert(s, x))
    ensures PriceOf(Insert(s, x), other) == if other == x.id then Some(x.price) else PriceOf(s, other)
  {
    hide Find, Insert;
    InsertIs(s, x);
    var k, r := InsertPos(s, x), Insert(s, x);
    assert forall i :: 0 <= i < |r| ==> r[i] == if i < k then s[i] else if i == k then x else s[i - 1];
    var j := Find(s, other);
    if other == x.id {
      FindIs(r, other, k);
    } else if j != -1 {
      FindIs(r, other, if j < k then j else j + 1);
    }
  }

  // ---------------------------------------------------------------------------------------------
  // The mirror under one change
  // ---------------------------------------------------------------------------------------------

  lemma Located(m: Mirror, b: Book, id: int)
    requires Tracks(m, b)
    ensures id in m.index <==> IsResting(b, id)
    ensures forall side :: Find(SideOf(b, side), id) != -1 ==>
      m.index[id] == Location(side, SideOf(b, side)[Find(SideOf(b, side), id)].price)
  {
    hide Find;
    assert Entry(m.index, id) == WhereIs(b, id);
  }

  lemma EraseTracks(m: Mirror, b: Book, id: int)
    requires Tracks(m, b)
    ensures Tracks(Erased(m, id), RemoveResting(b, id))
  {
    hide Find, Indexes, DistinctIds, DisjointIds, AllOn, Remove, Erased;
    EraseLists(m, b, id);
    EraseIndex(m, b, id);
    RemoveListed(b, id);
  }

  lemma EraseLists(m: Mirror, b: Book, id: int)
    requires Tracks(m, b)
    ensures var m', b' := Erased(m, id), RemoveResting(b, id);
            m'.bids == b'.bids && m'.asks == b'.asks && m'.index == m.index - {id}
  {
    hide Find, FindAt, Indexes;
    Located(m, b, id);
    if Find(b.bids, id) != -1 {
      FindAtIs(b.bids, id);
      OtherSideKeeps(b, Buy, id);
    } else if Find(b.asks, id) != -1 {
      FindAtIs(b.asks, id);
      OtherSideKeeps(b, Sell, id);
    }
  }

  lemma EraseIndex(m: Mirror, b: Book, id: int)
    requires Indexes(m.index, b) && DistinctIds(b.bids) && DistinctIds(b.asks)
    ensures Indexes(m.index - {id}, RemoveResting(b, id))
  {
    hide Find, Remove, DistinctIds, PriceOf;
    var index, b' := m.index - {id}, RemoveResting(b, id);
    forall other ensures Entry(index, other) == WhereIs(b', other) {
      PriceAfterRemove(b.bids, id, other);
      PriceAfterRemove(b.asks, id, other);
      assert Entry(m.index, other) == WhereIs(b, other);
    }
  }

  // What a fill does to the list of the passive side.
  function FilledList(s: seq<Order>, id: int, quantity: int): seq<Order> {
    var k := Find(s, id);
    if k == -1 then s
    else if s[k].remaining - quantity <= 0 then Remove(s, id)
    else s[k := Filled(s[k], quantity)]
  }

  lemma FillTracks(m: Mirror, b: Book, side: Side, id: int, quantity: int)
    requires Tracks(m, b) && Find(SideOf(b, side), id) != -1
    ensures Tracks(Reduced(m, id, quantity), WithSide(b, side, FilledList(SideOf(b, side), id, quantity)))
  {
    hide Find, FindAt, Indexes;
    var s := SideOf(b, side);
    var k := Find(s, id);
    Located(m, b, id);
    FindAtIs(s, id);
    if s[k].remaining - quantity <= 0 {
      EraseTracks(m, b, id);
      OtherSideKeeps(b, side, id);
    } else {
      KeepsPlaces(m, b, side, k, quantity);
    }
  }

  lemma OtherSideKeeps(b: Book, side: Side, id: int)
    requires Listed(b) && Find(SideOf(b, side), id) != -1
    ensures RemoveResting(b, id) == WithSide(b, side, Remove(SideOf(b, side), id))
  {
    hide Find;
  }

  lemma KeepsPlaces(m: Mirror, b: Book, side: Side, k: int, quantity: int)
    requires Tracks(m, b) && 0 <= k < |SideOf(b, side)|
    ensures var s := SideOf(b, side);
            var s' := s[k := Filled(s[k], quantity)];
            Tracks(WithList(m, side, s'), WithSide(b, side, s'))
  {
    hide Find;
    var s := SideOf(b, side);
    var s' := s[k := Filled(s[k], quantity)];
    var b' := WithSide(b, side, s');
    forall id ensures Entry(m.index, id) == WhereIs(b', id) {
      PriceAfterFill(s, k, quantity, id);
      assert Entry(m.index, id) == WhereIs(b, id);
    }
    PriceAfterFill(s, k, quantity, 0);
  }

  lemma AddTracks(m: Mirror, b: Book, x: Order)
    requires Tracks(m, b) && !IsResting(b, x.id)
    ensures Tracks(Added(m, x), WithSide(b, x.side, Insert(SideOf(b, x.side), x)))
  {
    hide Find, Insert;
    var s := SideOf(b, x.side);
    var m', b' := Added(m, x), WithSide(b, x.side, Insert(s, x));
    forall id ensures Entry(m'.index, id) == WhereIs(b', id) {
      PriceAfterInsert(s, x, id);
      assert Entry(m.index, id) == WhereIs(b, id);
    }
    PriceAfterInsert(s, x, 0);
    InsertListed(b, x);
  }

  lemma InsertListed(b: Book, x: Order)
    requires Listed(b) && !IsResting(b, x.id)
    ensures Listed(WithSide(b, x.side, Insert(SideOf(b, x.side), x)))
  {
    hide Find, Insert, DistinctIds, DisjointIds;
    var s, t := SideOf(b, x.side), SideOf(b, Opposite(x.side));
    InsertIs(s, x);
    DisjointSwap(s, t);
    InsertDisjoint(s, x, t);
    PriceAfterInsert(s, x, 0);
    DisjointSwap(Insert(s, x), t);
    InsertOn(s, x);
  }

  lemma InsertOn(s: seq<Order>, x: Order)
    requires AllOn(x.side, s)
    ensures AllOn(x.side, Insert(s, x))
  {
    hide Insert;
    InsertIs(s, x);
  }

  lemma DisjointSwap(s: seq<Order>, t: seq<Order>)
    ensures DisjointIds(s, t) <==> DisjointIds(t, s)
  {
  }

  lemma RemoveListed(b: Book, id: int)
    requires Listed(b)
    ensures Listed(RemoveResting(b, id))
  {
    hide Find, Remove;
    PriceAfterRemove(b.bids, id, id);
    PriceAfterRemove(b.asks, id, id);
    RemoveBringsNone(b.bids, id);
    RemoveBringsNone(b.asks, id);
  }

  // Removal brings in no order.
  lemma RemoveBringsNone(s: seq<Order>, id: int)
    ensures forall i :: 0 <= i < |Remove(s, id)| ==> Remove(s, id)[i] in s
  {
    hide Find;
  }

  // ---------------------------------------------------------------------------------------------
  // Replaying one match: all its trades, then all its victims
  // ---------------------------------------------------------------------------------------------

  function FilledAll(s: seq<Order>, ts: seq<Trade>): seq<Order>
    decreases |ts|
  {
    if ts == [] then s else FilledAll(FilledList(s, ts[0].passiveId, ts[0].quantity), ts[1..])
  }

  function RemovedAll(s: seq<Order>, vs: seq<Order>): seq<Order>
    decreases |vs|
  {
    if vs == [] then s else RemovedAll(Remove(s, vs[0].id), vs[1..])
  }

  ghost predicate Spares(ts: seq<Trade>, id: int) {
    forall i :: 0 <= i < |ts| ==> ts[i].passiveId != id
  }

  // Trades of a match name orders of the opposite side.
  lemma {:induction false} TradesName(stp: StpPolicy, o: NewOrder, opp: seq<Order>, remaining: int, tradeId: int, id: int)
    requires Find(opp, id) == -1
    ensures Spares(Match(stp, o, opp, remaining, tradeId).trades, id)
    decreases |opp|
  {
    hide Find;
    match TakeTurn(stp, o, opp, remaining, tradeId)
    case Stop(_) =>
    case Gone(trades, victims, remaining') =>
      FindTail(opp, id);
      TradesName(stp, o, opp[1..], remaining', tradeId + |trades|, id);
  }

  lemma FindTail(s: seq<Order>, id: int)
    requires s != [] && Find(s, id) == -1
    ensures Find(s[1..], id) == -1
  {
  }

  lemma FillBehind(top: Order, s: seq<Order>, id: int, quantity: int)
    requires top.id != id
    ensures FilledList([top] + s, id, quantity) == [top] + FilledList(s, id, quantity)
  {
    FindBehind(top, s, id);
    hide Find;
    var r, k := [top] + s, Find(s, id);
    if k != -1 {
      assert r[..k + 1] == [top] + s[..k] && r[k + 2..] == s[k + 1..];
    }
  }

  lemma FindBehind(top: Order, s: seq<Order>, id: int)
    requires top.id != id
    ensures Find([top] + s, id) == if Find(s, id) == -1 then -1 else Find(s, id) + 1
  {
    assert ([top] + s)[1..] == s;
  }

  // Fills of orders behind the first one leave it alone.
  lemma {:induction false} FillsBehind(top: Order, s: seq<Order>, ts: seq<Trade>)
    requires Spares(ts, top.id)
    ensures FilledAll([top] + s, ts) == [top] + FilledAll(s, ts)
    decreases |ts|
  {
    hide FilledList;
    if ts != [] {
      FillBehind(top, s, ts[0].passiveId, ts[0].quantity);
      FillsBehind(top, FilledList(s, ts[0].passiveId, ts[0].quantity), ts[1..]);
    }
  }

  lemma FillTop(s: seq<Order>, quantity: int)
    requires s != []
    ensures FilledList(s, s[0].id, quantity)
         == if s[0].remaining - quantity <= 0 then s[1..] else [Filled(s[0], quantity)] + s[1..]
  {
    assert Find(s, s[0].id) == 0;
  }

  lemma RemoveTop(s: seq<Order>)
    requires s != []
    ensures Remove(s, s[0].id) == s[1..]
  {
    assert Find(s, s[0].id) == 0;
  }

  lemma FirstIsOnly(s: seq<Order>)
    requires s != [] && DistinctIds(s)
    ensures DistinctIds(s[1..]) && Find(s[1..], s[0].id) == -1
  {
  }

  ghost predicate Replays(opp: seq<Order>, m: MatchResult) {
    RemovedAll(FilledAll(opp, m.trades), m.victims) == m.rest && |FilledAll(opp, m.trades)| == |m.rest| + |m.victims|
  }

  lemma ReplayVictim(top: Order, tail: seq<Order>, n: MatchResult)
    requires Replays(tail, n) && Spares(n.trades, top.id)
    ensures Replays([top] + tail, Emit([], [top], n))
  {
    hide FilledList, Remove;
    var m := Emit([], [top], n);
    FillsBehind(top, tail, n.trades);
    RemoveTop([top] + FilledAll(tail, n.trades));
    assert m.trades == n.trades && m.victims[1..] == n.victims;
  }

  lemma ReplayTrade(top: Order, tail: seq<Order>, t: Trade, n: MatchResult)
    requires Replays(tail, n) && t.passiveId == top.id && t.quantity == top.remaining
    ensures Replays([top] + tail, Emit([t], [], n))
  {
    hide FilledList, Remove;
    var m := Emit([t], [], n);
    FillTop([top] + tail, t.quantity);
    assert m.trades[1..] == n.trades && m.victims == n.victims;
  }

  lemma StopReplays(stp: StpPolicy, o: NewOrder, opp: seq<Order>, remaining: int, tradeId: int)
    requires Positive(opp) && TakeTurn(stp, o, opp, remaining, tradeId).Stop?
    ensures Replays(opp, TakeTurn(stp, o, opp, remaining, tradeId).m)
  {
    hide FilledList, Find, Remove;
    var m := TakeTurn(stp, o, opp, remaining, tradeId).m;
    if opp != [] {
      FillTop(opp, Min(remaining, opp[0].remaining));
      RemoveTop(opp);
      var top, q := opp[0], Min(remaining, opp[0].remaining);
      assert m.trades != [] ==> m.trades == [TradeFor(o, top, q, tradeId)] && m.trades[1..] == [];
      assert m.trades != [] ==> FilledAll(opp, m.trades) == FilledAll(FilledList(opp, top.id, q), []);
      assert m.victims != [] ==> m.victims == [top] && m.victims[1..] == [];
      assert m.victims != [] ==> RemovedAll(opp, m.victims) == RemovedAll(Remove(opp, top.id), []);
    }
  }

  /** Trades and self-trade removals interleave in a match but are published apart; the list comes out the same. */
  lemma {:induction false} MatchReplays(stp: StpPolicy, o: NewOrder, opp: seq<Order>, remaining: int, tradeId: int)
    requires DistinctIds(opp) && Positive(opp)
    ensures Replays(opp, Match(stp, o, opp, remaining, tradeId))
    decreases |opp|
  {
    hide FilledList, Find, Remove, DistinctIds;
    if remaining > 0 && opp != [] && Crosses(o, opp[0].price) {
      FirstIsOnly(opp);
      var top, tail := opp[0], opp[1..];
      assert opp == [top] + tail;
      hide Replays;
      match TakeTurn(stp, o, opp, remaining, tradeId)
      case Stop(_) =>
        StopReplays(stp, o, opp, remaining, tradeId);
      case Gone(trades, victims, remaining') =>
        var n := Match(stp, o, tail, remaining', tradeId + |trades|);
        MatchReplays(stp, o, tail, remaining', tradeId + |trades|);
        if trades == [] {
          TradesName(stp, o, tail, remaining', tradeId, top.id);
          ReplayVictim(top, tail, n);
        } else {
          ReplayTrade(top, tail, trades[0], n);
        }
    }
  }

  // ---------------------------------------------------------------------------------------------
  // The mirror under the events of one command
  // ---------------------------------------------------------------------------------------------

  ghost predicate Absent(s: seq<Order>, id: int) {
    Find(s, id) == -1
  }

  // No trade fills an order of `own`.
  ghost predicate FillsNone(ts: seq<Trade>, own: seq<Order>) {
    forall i :: 0 <= i < |ts| ==> Absent(own, ts[i].passiveId)
  }

  // No victim is an order of `own`, and all of them arrived before `last`.
  ghost predicate RemovesNone(vs: seq<Order>, own: seq<Order>, last: int) {
    forall i :: 0 <= i < |vs| ==> Absent(own, vs[i].id) && vs[i].arrival <= last
  }

  lemma CutNone(ts: seq<Trade>, vs: seq<Order>, own: seq<Order>, last: int, cap: nat)
    requires FillsNone(ts, own) && RemovesNone(vs, own, last)
    ensures FillsNone(Cut(ts, cap), own) && RemovesNone(Cut(vs, cap), own, last)
  {
  }

  lemma TradeTracks(m: Mirror, b: Book, side: Side, t: Trade, n: int)
    requires Tracks(m, b) && Absent(SideOf(b, Opposite(side)), t.passiveId)
    ensures var m' := Apply(m, TradeEvent(t, n));
      && Tracks(m', WithSide(b, side, FilledList(SideOf(b, side), t.passiveId, t.quantity)))
      && m'.lastSeq == m.lastSeq && m'.tradeCount == m.tradeCount + 1
  {
    hide Find, Indexes, DistinctIds, DisjointIds;
    if Find(SideOf(b, side), t.passiveId) == -1 {
      Located(m, b, t.passiveId);
    } else {
      FillTracks(m, b, side, t.passiveId, t.quantity);
    }
  }

  lemma {:induction false} TradesTrack(m: Mirror, b: Book, side: Side, ts: seq<Trade>, n: int)
    requires Tracks(m, b) && FillsNone(ts, SideOf(b, Opposite(side)))
    ensures var m' := ApplyAll(m, TradeEvents(ts, n));
      && Tracks(m', WithSide(b, side, FilledAll(SideOf(b, side), ts)))
      && m'.lastSeq == m.lastSeq && m'.tradeCount == m.tradeCount + |ts|
    decreases |ts|
  {
    hide Tracks, Absent, FilledList, Apply;
    var es := TradeEvents(ts, n);
    if ts != [] {
      TradeTracks(m, b, side, ts[0], n);
      var b1 := WithSide(b, side, FilledList(SideOf(b, side), ts[0].passiveId, ts[0].quantity));
      assert es[1..] == TradeEvents(ts[1..], n);
      TradesTrack(Apply(m, es[0]), b1, side, ts[1..], n);
    }
  }

  lemma VictimTracks(m: Mirror, b: Book, side: Side, v: Order, n: int)
    requires Tracks(m, b) && Absent(SideOf(b, Opposite(side)), v.id) && v.arrival <= m.lastSeq
    ensures var m' := Apply(m, CancelEvent(v, n));
      && Tracks(m', WithSide(b, side, Remove(SideOf(b, side), v.id)))
      && m'.lastSeq == m.lastSeq && m'.tradeCount == m.tradeCount
  {
    hide Find, Indexes, DistinctIds, DisjointIds;
    EraseTracks(m, b, v.id);
  }

  lemma {:induction false} VictimsTrack(m: Mirror, b: Book, side: Side, vs: seq<Order>, n: int)
    requires Tracks(m, b) && RemovesNone(vs, SideOf(b, Opposite(side)), m.lastSeq)
    ensures var m' := ApplyAll(m, VictimEvents(vs, n));
      && Tracks(m', WithSide(b, side, RemovedAll(SideOf(b, side), vs)))
      && m'.lastSeq == m.lastSeq && m'.tradeCount == m.tradeCount
    decreases |vs|
  {
    hide Tracks, Absent, Remove, Apply;
    var es := VictimEvents(vs, n);
    if vs != [] {
      VictimTracks(m, b, side, vs[0], n);
      assert es[1..] == VictimEvents(vs[1..], n);
      VictimsTrack(Apply(m, es[0]), WithSide(b, side, Remove(SideOf(b, side), vs[0].id)), side, vs[1..], n);
    }
  }

  lemma {:induction false} VictimsAre(stp: StpPolicy, o: NewOrder, opp: seq<Order>, remaining: int, tradeId: int)
    ensures forall i :: 0 <= i < |Match(stp, o, opp, remaining, tradeId).victims| ==>
      Match(stp, o, opp, remaining, tradeId).victims[i] in opp
    decreases |opp|
  {
    match TakeTurn(stp, o, opp, remaining, tradeId)
    case Stop(_) =>
    case Gone(trades, victims, remaining') =>
      VictimsAre(stp, o, opp[1..], remaining', tradeId + |trades|);
  }

  // Neither list names an order of the aggressor's own side.
  lemma MatchNames(cfg: Config, b: Book, o: NewOrder)
    requires BookInv(cfg, b)
    ensures var m := Match(cfg.stp, o, SideOf(b, Opposite(o.side)), o.quantity, b.nextTradeId);
            FillsNone(m.trades, SideOf(b, o.side)) && RemovesNone(m.victims, SideOf(b, o.side), b.lastArrival)
  {
    hide Find, Match, BookInv;
    InvListed(cfg, b);
    var own, opp := SideOf(b, o.side), SideOf(b, Opposite(o.side));
    var m := Match(cfg.stp, o, opp, o.quantity, b.nextTradeId);
    VictimsAre(cfg.stp, o, opp, o.quantity, b.nextTradeId);
    forall i | 0 <= i < |m.trades| ensures Absent(own, m.trades[i].passiveId) {
      var id := m.trades[i].passiveId;
      if Find(opp, id) == -1 {
        TradesName(cfg.stp, o, opp, o.quantity, b.nextTradeId, id);
      }
    }
    forall i | 0 <= i < |m.victims| ensures Absent(own, m.victims[i].id) && m.victims[i].arrival <= b.lastArrival {
      var k :| 0 <= k < |opp| && opp[k] == m.victims[i];
    }
  }

  lemma InvListed(cfg: Config, b: Book)
    requires BookInv(cfg, b)
    ensures Listed(b)
    ensures Positive(b.bids) && Positive(b.asks)
    ensures forall side, i :: 0 <= i < |SideOf(b, side)| ==> SideOf(b, side)[i].arrival <= b.lastArrival
  {
    SideOkPositive(cfg, Buy, b.lastArrival, b.bids);
    SideOkPositive(cfg, Sell, b.lastArrival, b.asks);
  }

  lemma MatchTracks(cfg: Config, m: Mirror, b: Book, o: NewOrder, n: int)
    requires BookInv(cfg, b) && Agrees(m, b)
    ensures var r := Match(cfg.stp, o, SideOf(b, Opposite(o.side)), o.quantity, b.nextTradeId);
      var m' := ApplyAll(m, TradeEvents(r.trades, n) + VictimEvents(r.victims, n));
      && Tracks(m', WithSide(b, Opposite(o.side), r.rest))
      && m'.lastSeq == b.lastArrival && m'.tradeCount == b.nextTradeId + |r.trades|
  {
    hide BookInv, Listed, Indexes, Match, FillsNone, RemovesNone, FilledAll, RemovedAll, ApplyAll;
    var opp := Opposite(o.side);
    var r := Match(cfg.stp, o, SideOf(b, opp), o.quantity, b.nextTradeId);
    InvListed(cfg, b);
    MatchNames(cfg, b, o);
    ListedDistinct(b, opp);
    MatchReplays(cfg.stp, o, SideOf(b, opp), o.quantity, b.nextTradeId);
    TradesTrack(m, b, opp, r.trades, n);
    var m1, b1 := ApplyAll(m, TradeEvents(r.trades, n)), WithSide(b, opp, FilledAll(SideOf(b, opp), r.trades));
    VictimsTrack(m1, b1, opp, r.victims, n);
    ApplySplit(m, TradeEvents(r.trades, n), VictimEvents(r.victims, n));
  }

  lemma ListedDistinct(b: Book, side: Side)
    requires Listed(b)
    ensures DistinctIds(SideOf(b, side))
  {
  }

  lemma {:induction false} StatusIgnored(m: Mirror, es: seq<Event>)
    requires forall i :: 0 <= i < |es| ==> es[i].StatusEvent?
    ensures ApplyAll(m, es) == m
    decreases |es|
  {
    if es != [] {
      StatusIgnored(m, es[1..]);
    }
  }

  // The event that says what became of the order completes the mirror.
  lemma OutcomeTracks(cfg: Config, m: Mirror, b: Book, o: NewOrder, n: int)
    requires BookInv(cfg, b) && Refusal(cfg, b, o).Ok?
    requires var r := Match(cfg.stp, o, SideOf(b, Opposite(o.side)), o.quantity, b.nextTradeId);
      && Tracks(m, WithSide(b, Opposite(o.side), r.rest))
      && m.lastSeq == b.lastArrival && m.tradeCount == b.nextTradeId + |r.trades|
    ensures var e := Submit(cfg, b, o);
            Agrees(Apply(m, OutcomeEvent(o.id, e.result, n)), e.book)
  {
    hide BookInv, Listed, Indexes, Match, Refusal, Insert, Find;
    var e := Submit(cfg, b, o);
    var r := Match(cfg.stp, o, SideOf(b, Opposite(o.side)), o.quantity, b.nextTradeId);
    var b1 := WithSide(b, Opposite(o.side), r.rest);
    SameLists(m, b1, b1.(lastArrival := b.lastArrival + 1, nextTradeId := b.nextTradeId + |r.trades|));
    if e.result.rested {
      StillFresh(cfg, b, o);
      AddTracks(m.(lastSeq := b.lastArrival + 1), b1.(lastArrival := b.lastArrival + 1, nextTradeId := b.nextTradeId + |r.trades|),
                OrderOf(o.id, e.result));
    }
  }

  // Tracking is about the lists, not the counters.
  lemma SameLists(m: Mirror, b: Book, b': Book)
    requires Tracks(m, b) && b'.bids == b.bids && b'.asks == b.asks
    ensures forall last :: Tracks(m.(lastSeq := last), b')
  {
    hide Find, DistinctIds, DisjointIds;
    forall id ensures Entry(m.index, id) == WhereIs(b', id) {
      assert Entry(m.index, id) == WhereIs(b, id);
    }
  }

  // A submission's trades, victims, any status events, and its outcome.
  lemma SubmitReplays(cfg: Config, m: Mirror, b: Book, o: NewOrder, n: int, mid: seq<Event>)
    requires BookInv(cfg, b) && Agrees(m, b) && forall i :: 0 <= i < |mid| ==> mid[i].StatusEvent?
    ensures var e := Submit(cfg, b, o);
      Agrees(ApplyAll(m, TradeEvents(e.trades, n) + VictimEvents(e.victims, n) + mid + [OutcomeEvent(o.id, e.result, n)]), e.book)
  {
    hide BookInv, Tracks, Match, Refusal, Insert, Apply, TradeEvents, VictimEvents;
    var e := Submit(cfg, b, o);
    var tv, last := TradeEvents(e.trades, n) + VictimEvents(e.victims, n), OutcomeEvent(o.id, e.result, n);
    var m1 := ApplyAll(m, tv);
    ApplySplit(m, tv + mid, [last]);
    ApplySplit(m, tv, mid);
    StatusIgnored(m1, mid);
    assert ApplyAll(m1, [last]) == Apply(m1, last);
    if Refusal(cfg, b, o).Ok? {
      MatchTracks(cfg, m, b, o, n);
      OutcomeTracks(cfg, m1, b, o, n);
    } else {
      assert tv == [];
      RejectedTracks(cfg, m, b, o, n, Refusal(cfg, b, o));
    }
  }

  lemma RejectedTracks(cfg: Config, m: Mirror, b: Book, o: NewOrder, n: int, status: SubmitStatus)
    requires BookInv(cfg, b) && Agrees(m, b)
    ensures Apply(m, OutcomeEvent(o.id, Rejected(o, status), n)) == m
  {
  }

  lemma CancelReplays(cfg: Config, m: Mirror, b: Book, id: int, n: int)
    requires BookInv(cfg, b) && Agrees(m, b) && IsResting(b, id)
    ensures var e := CancelOrder(b, id);
            Agrees(Apply(m, CancelEvent(OrderOf(id, e.result), n)), e.book)
  {
    hide Find, Indexes, Listed, BookInv, RemoveResting, RestingOrder;
    InvListed(cfg, b);
    EraseTracks(m, b, id);
    RestingArrived(b, id);
    RemoveCounters(b, id);
  }

  lemma RestingArrived(b: Book, id: int)
    requires IsResting(b, id)
    requires forall side, i :: 0 <= i < |SideOf(b, side)| ==> SideOf(b, side)[i].arrival <= b.lastArrival
    ensures RestingOrder(b, id).arrival <= b.lastArrival
  {
    hide Find;
    var k := Find(b.bids, id);
    assert k != -1 ==> SideOf(b, Buy)[k] == RestingOrder(b, id);
    assert k == -1 ==> SideOf(b, Sell)[Find(b.asks, id)] == RestingOrder(b, id);
  }

  lemma RemoveCounters(b: Book, id: int)
    ensures RemoveResting(b, id).lastArrival == b.lastArrival && RemoveResting(b, id).nextTradeId == b.nextTradeId
  {
  }

  /** After the events of a dispatched command that fits the buffers, the mirror is the book again. */
  lemma MirrorFollows(cfg: Config, m: Mirror, b: Book, c: Command, n: int, cap: nat)
    requires BookInv(cfg, b) && Agrees(m, b) && Fits(cfg, b, c, cap)
    ensures Agrees(ApplyAll(m, EventsOf(cfg, b, c, n, cap)), Step(cfg, b, c).book)
  {
    hide BookInv, Tracks, Submit, CancelOrder, ReplaceRefusal, Apply, TradeEvents, VictimEvents;
    match c
    case New(o) =>
      var e := Submit(cfg, b, o);
      SubmitReplays(cfg, m, b, o, n, if e.result.status.Ok? then [] else [StatusEvent(o.id, e.result.status, n)]);
    case Cancel(id) =>
      CancelFollows(cfg, m, b, id, n);
    case Replace(oldId, amended) =>
      ReplaceFollows(cfg, m, b, oldId, amended, n, cap);
  }

  lemma CancelFollows(cfg: Config, m: Mirror, b: Book, id: int, n: int)
    requires BookInv(cfg, b) && Agrees(m, b)
    ensures var e := CancelOrder(b, id);
            Agrees(ApplyAll(m, CancelEvents(id, e.result, n)), e.book)
  {
    hide BookInv, Tracks, Find;
    var e := CancelOrder(b, id);
    StatusIgnored(m, [StatusEvent(id, e.result.status, n)]);
    if IsResting(b, id) {
      ApplySplit(m, [StatusEvent(id, e.result.status, n)], [CancelEvent(OrderOf(id, e.result), n)]);
      CancelReplays(cfg, m, b, id, n);
    }
  }

  lemma ReplaceFollows(cfg: Config, m: Mirror, b: Book, oldId: int, amended: NewOrder, n: int, cap: nat)
    requires BookInv(cfg, b) && Agrees(m, b) && Fits(cfg, b, Replace(oldId, amended), cap)
    ensures var e := ReplaceOrder(cfg, b, oldId, amended);
            Agrees(ApplyAll(m, ReplaceEvents(oldId, amended, e, n, cap)), e.effect.book)
  {
    hide BookInv, Tracks, Submit, Apply, TradeEvents, VictimEvents, Find, RejectedBeforeDispatch;
    var e := ReplaceOrder(cfg, b, oldId, amended);
    var r := e.effect.result;
    ReplaceRejectedIff(cfg, b, oldId, amended);
    var status := [StatusEvent(amended.id, r.status, n)];
    if !e.cancelled {
      StatusIgnored(m, status);
      assert ReplaceEvents(oldId, amended, e, n, cap) == status;
    } else {
      var c, first := CancelOrder(b, oldId), CancelEvent(OrderOf(oldId, e.removed), n);
      CancelKeeps(cfg, b, oldId);
      CancelReplays(cfg, m, b, oldId, n);
      SubmitReplays(cfg, Apply(m, first), c.book, amended, n, status);
      var rest := TradeEvents(e.effect.trades, n) + VictimEvents(e.effect.victims, n) + status + [OutcomeEvent(amended.id, r, n)];
      assert ReplaceEvents(oldId, amended, e, n, cap) == [first] + rest;
      assert ([first] + rest)[1..] == rest;
    }
  }

  // ---------------------------------------------------------------------------------------------
  // When the buffers are too small
  // ---------------------------------------------------------------------------------------------

  lemma CutMatch(cfg: Config, m: Mirror, b: Book, o: NewOrder, n: int, cap: nat)
    requires BookInv(cfg, b) && Agrees(m, b)
    ensures var opp := Opposite(o.side);
      var r := Match(cfg.stp, o, SideOf(b, opp), o.quantity, b.nextTradeId);
      var ts, vs := Cut(r.trades, cap), Cut(r.victims, cap);
      var m' := ApplyAll(m, TradeEvents(ts, n) + VictimEvents(vs, n));
      && m'.tradeCount == b.nextTradeId + |ts|
      && ListOf(m', opp) == RemovedAll(FilledAll(SideOf(b, opp), ts), vs)
  {
    hide BookInv, Listed, Indexes, Match, FillsNone, RemovesNone, FilledAll, RemovedAll, TradeEvents, VictimEvents, ApplyAll, Cut;
    var opp := Opposite(o.side);
    var r := Match(cfg.stp, o, SideOf(b, opp), o.quantity, b.nextTradeId);
    var ts, vs := Cut(r.trades, cap), Cut(r.victims, cap);
    InvListed(cfg, b);
    MatchNames(cfg, b, o);
    CutNone(r.trades, r.victims, SideOf(b, o.side), b.lastArrival, cap);
    TradesTrack(m, b, opp, ts, n);
    var m1, b1 := ApplyAll(m, TradeEvents(ts, n)), WithSide(b, opp, FilledAll(SideOf(b, opp), ts));
    VictimsTrack(m1, b1, opp, vs, n);
    ApplySplit(m, TradeEvents(ts, n), VictimEvents(vs, n));
  }

  // What the mirror is left with when the buffers keep only their first `cap` entries.
  lemma CutReplays(cfg: Config, m: Mirror, b: Book, o: NewOrder, n: int, cap: nat, mid: seq<Event>)
    requires BookInv(cfg, b) && Agrees(m, b) && forall i :: 0 <= i < |mid| ==> mid[i].StatusEvent?
    requires Refusal(cfg, b, o).Ok?
    ensures var e, opp := Submit(cfg, b, o), Opposite(o.side);
      var ts, vs := Cut(e.trades, cap), Cut(e.victims, cap);
      var m' := ApplyAll(m, TradeEvents(ts, n) + VictimEvents(vs, n) + mid + [OutcomeEvent(o.id, e.result, n)]);
      && m'.tradeCount == b.nextTradeId + |ts|
      && ListOf(m', opp) == RemovedAll(FilledAll(SideOf(b, opp), ts), vs)
  {
    hide BookInv, Listed, Indexes, Match, FilledAll, RemovedAll, TradeEvents, VictimEvents, Refusal, Insert;
    var e := Submit(cfg, b, o);
    var tv := TradeEvents(Cut(e.trades, cap), n) + VictimEvents(Cut(e.victims, cap), n);
    CutMatch(cfg, m, b, o, n, cap);
    var m2, last := ApplyAll(m, tv), OutcomeEvent(o.id, e.result, n);
    ApplySplit(m, tv, mid);
    ApplySplit(m, tv + mid, [last]);
    StatusIgnored(m2, mid);
    assert ApplyAll(m2, [last]) == Apply(m2, last);
  }

  lemma {:induction false} RemovedAtMost(s: seq<Order>, vs: seq<Order>)
    ensures |RemovedAll(s, vs)| >= |s| - |vs|
    decreases |vs|
  {
    if vs != [] {
      RemovedAtMost(Remove(s, vs[0].id), vs[1..]);
    }
  }

  lemma SubmitCut(cfg: Config, m: Mirror, b: Book, o: NewOrder, n: int, cap: nat, mid: seq<Event>)
    requires BookInv(cfg, b) && Agrees(m, b) && forall i :: 0 <= i < |mid| ==> mid[i].StatusEvent?
    requires var e := Submit(cfg, b, o); |e.trades| > cap || |e.victims| > cap
    ensures var e := Submit(cfg, b, o);
      !Agrees(ApplyAll(m, TradeEvents(Cut(e.trades, cap), n) + VictimEvents(Cut(e.victims, cap), n) + mid
                          + [OutcomeEvent(o.id, e.result, n)]), e.book)
  {
    hide BookInv, Listed, Indexes, Match, FilledAll, RemovedAll, TradeEvents, VictimEvents, Refusal, Insert, ApplyAll;
    var e, opp := Submit(cfg, b, o), Opposite(o.side);
    CutReplays(cfg, m, b, o, n, cap, mid);
    InvListed(cfg, b);
    ListedDistinct(b, opp);
    MatchReplays(cfg.stp, o, SideOf(b, opp), o.quantity, b.nextTradeId);
    RemovedAtMost(FilledAll(SideOf(b, opp), Cut(e.trades, cap)), Cut(e.victims, cap));
  }

  /** The buffers' capacity is exactly what the mirror depends on: it follows a command if and only if every order the
      command will reach finds room in its buffer. */
  lemma MirrorFollowsIff(cfg: Config, m: Mirror, b: Book, c: Command, n: int, cap: nat)
    requires BookInv(cfg, b) && Agrees(m, b)
    ensures Agrees(ApplyAll(m, EventsOf(cfg, b, c, n, cap)), Step(cfg, b, c).book) <==> HasRoom(cfg, b, c, cap)
  {
    hide BookInv, Tracks, Submit, CancelOrder, ReplaceRefusal, Apply, TradeEvents, VictimEvents, HasRoom;
    FitsIff(cfg, b, c, cap);
    if Fits(cfg, b, c, cap) {
      MirrorFollows(cfg, m, b, c, n, cap);
    } else {
      match c
      case New(o) =>
        var e := Submit(cfg, b, o);
        SubmitCut(cfg, m, b, o, n, cap, if e.result.status.Ok? then [] else [StatusEvent(o.id, e.result.status, n)]);
      case Cancel(id) =>
        CancelQuiet(b, id);
      case Replace(oldId, amended) =>
        ReplaceCut(cfg, m, b, oldId, amended, n, cap);
    }
  }

  lemma CancelQuiet(b: Book, id: int)
    ensures CancelOrder(b, id).trades == [] && CancelOrder(b, id).victims == []
  {
  }

  lemma ReplaceCut(cfg: Config, m: Mirror, b: Book, oldId: int, amended: NewOrder, n: int, cap: nat)
    requires BookInv(cfg, b) && Agrees(m, b) && !Fits(cfg, b, Replace(oldId, amended), cap)
    ensures var e := ReplaceOrder(cfg, b, oldId, amended);
            !Agrees(ApplyAll(m, ReplaceEvents(oldId, amended, e, n, cap)), e.effect.book)
  {
    hide BookInv, Tracks, Submit, Apply, TradeEvents, VictimEvents, Find, RejectedBeforeDispatch, Cut;
    var e := ReplaceOrder(cfg, b, oldId, amended);
    var r := e.effect.result;
    ReplaceRejectedIff(cfg, b, oldId, amended);
    var c, first := CancelOrder(b, oldId), CancelEvent(OrderOf(oldId, e.removed), n);
    CancelKeeps(cfg, b, oldId);
    CancelReplays(cfg, m, b, oldId, n);
    var status := [StatusEvent(amended.id, r.status, n)];
    SubmitCut(cfg, Apply(m, first), c.book, amended, n, cap, status);
    var rest := TradeEvents(Cut(e.effect.trades, cap), n) + VictimEvents(Cut(e.effect.victims, cap), n) + status
      + [OutcomeEvent(amended.id, r, n)];
    assert ReplaceEvents(oldId, amended, e, n, cap) == [first] + rest;
    assert ([first] + rest)[1..] == rest;
  }

  // ---------------------------------------------------------------------------------------------
  // Whole runs
  // ---------------------------------------------------------------------------------------------

  // Everything published while the commands `cs` are dispatched, numbered from `n` on.
  function EventsOfRun(cfg: Config, b: Book, cs: seq<Command>, n: int, cap: nat): seq<Event>
    decreases |cs|
  {
    if cs == [] then []
    else
      var last := |cs| - 1;
      EventsOfRun(cfg, b, cs[..last], n, cap) + EventsOf(cfg, Run(cfg, b, cs[..last]), cs[last], n + last, cap)
  }

  // Every command of the run finds room in the buffers when its turn comes.
  ghost predicate RunHasRoom(cfg: Config, cs: seq<Command>, cap: nat) {
    forall i :: 0 <= i < |cs| ==> HasRoom(cfg, Run(cfg, EmptyBook, cs[..i]), cs[i], cap)
  }

  lemma RoomBefore(cfg: Config, cs: seq<Command>, cap: nat, k: nat)
    requires RunHasRoom(cfg, cs, cap) && k <= |cs|
    ensures RunHasRoom(cfg, cs[..k], cap)
  {
    forall i | 0 <= i < k ensures HasRoom(cfg, Run(cfg, EmptyBook, cs[..k][..i]), cs[..k][i], cap) {
      assert cs[..k][..i] == cs[..i];
    }
  }

  /** A subscriber that starts from an empty mirror and applies the whole stream holds the book after every run whose
      commands find room in the buffers. */
  lemma {:induction false} MirrorOfRun(cfg: Config, cs: seq<Command>, n: int, cap: nat)
    requires ValidConfig(cfg) && RunHasRoom(cfg, cs, cap) && forall i :: 0 <= i < |cs| ==> GridCommand(cfg, cs[i])
    ensures BookInv(cfg, Run(cfg, EmptyBook, cs))
    ensures Agrees(ApplyAll(Cleared, EventsOfRun(cfg, EmptyBook, cs, n, cap)), Run(cfg, EmptyBook, cs))
    decreases |cs|
  {
    hide BookInv, Tracks, Step, EventsOf, ApplyAll, HasRoom;
    if cs == [] {
      StartsEqual(cfg);
    } else {
      var last := |cs| - 1;
      var es, b := EventsOfRun(cfg, EmptyBook, cs[..last], n, cap), Run(cfg, EmptyBook, cs[..last]);
      RoomBefore(cfg, cs, cap, last);
      MirrorOfRun(cfg, cs[..last], n, cap);
      StepKeeps(cfg, b, cs[last]);
      MirrorFollowsIff(cfg, ApplyAll(Cleared, es), b, cs[last], n + last, cap);
      ApplySplit(Cleared, es, EventsOf(cfg, b, cs[last], n + last, cap));
    }
  }

  // The mirror is the book after each of the commands.
  ghost predicate FollowsThroughout(cfg: Config, cs: seq<Command>, n: int, cap: nat) {
    forall k :: 0 <= k <= |cs| ==>
      Agrees(ApplyAll(Cleared, EventsOfRun(cfg, EmptyBook, cs[..k], n, cap)), Run(cfg, EmptyBook, cs[..k]))
  }

  /** From start to end of a run the mirror is the book if and only if every command finds room. */
  lemma MirrorOfRunIff(cfg: Config, cs: seq<Command>, n: int, cap: nat)
    requires ValidConfig(cfg) && forall i :: 0 <= i < |cs| ==> GridCommand(cfg, cs[i])
    ensures FollowsThroughout(cfg, cs, n, cap) <==> RunHasRoom(cfg, cs, cap)
  {
    hide Agrees, Run, EventsOfRun, ApplyAll, HasRoom;
    if RunHasRoom(cfg, cs, cap) {
      forall k | 0 <= k <= |cs|
        ensures Agrees(ApplyAll(Cleared, EventsOfRun(cfg, EmptyBook, cs[..k], n, cap)), Run(cfg, EmptyBook, cs[..k]))
      {
        RoomBefore(cfg, cs, cap, k);
        MirrorOfRun(cfg, cs[..k], n, cap);
      }
    }
    if FollowsThroughout(cfg, cs, n, cap) {
      forall i | 0 <= i < |cs| ensures HasRoom(cfg, Run(cfg, EmptyBook, cs[..i]), cs[i], cap) {
        RoomNeeded(cfg, cs, n, cap, i);
      }
    }
  }

  lemma RoomNeeded(cfg: Config, cs: seq<Command>, n: int, cap: nat, i: nat)
    requires ValidConfig(cfg) && (forall j :: 0 <= j < |cs| ==> GridCommand(cfg, cs[j])) && i < |cs|
    requires FollowsThroughout(cfg, cs, n, cap)
    ensures HasRoom(cfg, Run(cfg, EmptyBook, cs[..i]), cs[i], cap)
  {
    hide Agrees, Step, EventsOf, ApplyAll, HasRoom;
    var cs' := cs[..i + 1];
    var es, b := EventsOfRun(cfg, EmptyBook, cs[..i], n, cap), Run(cfg, EmptyBook, cs[..i]);
    assert cs'[..i] == cs[..i] && cs'[i] == cs[i] && |cs'| - 1 == i;
    EmptyInv(cfg);
    RunKeeps(cfg, EmptyBook, cs[..i]);
    ApplySplit(Cleared, es, EventsOf(cfg, b, cs[i], n + i, cap));
    assert EventsOfRun(cfg, EmptyBook, cs', n, cap) == es + EventsOf(cfg, b, cs[i], n + i, cap);
    assert Run(cfg, EmptyBook, cs') == Step(cfg, b, cs[i]).book;
    MirrorFollowsIff(cfg, ApplyAll(Cleared, es), b, cs[i], n + i, cap);
  }

  /** A buffer as large as the book always has room. */
  lemma LargeBuffers(cfg: Config, cs: seq<Command>, cap: nat)
    requires ValidConfig(cfg) && cap >= cfg.maxOrders && forall i :: 0 <= i < |cs| ==> GridCommand(cfg, cs[i])
    ensures RunHasRoom(cfg, cs, cap)
  {
    hide Run, HasRoom, BookInv, Step;
    forall i | 0 <= i < |cs| ensures HasRoom(cfg, Run(cfg, EmptyBook, cs[..i]), cs[i], cap) {
      var b := Run(cfg, EmptyBook, cs[..i]);
      EmptyInv(cfg);
      RunKeeps(cfg, EmptyBook, cs[..i]);
      StepBound(cfg, b, cs[i]);
      FitsIff(cfg, b, cs[i], cap);
    }
  }

  lemma StartsEqual(cfg: Config)
    requires ValidConfig(cfg)
    ensures BookInv(cfg, EmptyBook) && Agrees(ApplyAll(Cleared, []), EmptyBook)
  {
  }
}
