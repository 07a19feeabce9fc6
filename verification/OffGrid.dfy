/** What becomes of limit prices between two ticks. The level arrays are indexed by the rounded price, so orders at
    different prices can share a queue, and a level is offered under one price whatever its orders ask. */
module OffGrid {
  import opened Types
  import opened Matcher
  import opened MatcherLaws
  import opened BookLaws
  import opened Grid
  import opened SlotMatcher
  import opened FairPrices

  // ---------------------------------------------------------------------------------------------
  // The queue
  // ---------------------------------------------------------------------------------------------

  // An order at a worse price waits in the newcomer's slot.
  ghost predicate WorseSlotmate(cfg: Config, s: seq<Order>, x: Order)
    requires cfg.tick > 0
  {
    exists i :: 0 <= i < |s| && IndexOf(cfg, s[i].price) == IndexOf(cfg, x.price) && Better(x.side, x.price, s[i].price)
  }

  /** The newcomer takes its place in price-time order exactly when it shares its slot with no order at a worse price. */
  lemma {:induction false} QueueIff(cfg: Config, s: seq<Order>, x: Order)
    requires cfg.tick > 0 && PriceSorted(x.side, s)
    ensures SlotInsert(cfg, s, x) == Insert(s, x) <==> !WorseSlotmate(cfg, s, x)
  {
    hide IndexOf;
    if s != [] {
      var top, tail := s[0], s[1..];
      SlotsOrdered(cfg, x.price, top.price);
      SlotsOrdered(cfg, top.price, x.price);
      TailSorted(x.side, s);
      QueueIff(cfg, tail, x);
      if IndexOf(cfg, top.price) == IndexOf(cfg, x.price) && Better(x.side, x.price, top.price) {
        assert WorseSlotmate(cfg, s, x);
        assert SlotInsert(cfg, s, x)[0] == top && Insert(s, x)[0] == x;
      } else {
        SlotmateTail(cfg, s, x);
        if Better(x.side, x.price, top.price) {
          NoSlotmates(cfg, s, x);
        } else {
          assert SlotInsert(cfg, s, x)[1..] == SlotInsert(cfg, tail, x) && Insert(s, x)[1..] == Insert(tail, x);
        }
      }
    }
  }

  lemma TailSorted(side: Side, s: seq<Order>)
    requires s != [] && PriceSorted(side, s)
    ensures PriceSorted(side, s[1..])
  {
  }

  lemma SlotmateTail(cfg: Config, s: seq<Order>, x: Order)
    requires cfg.tick > 0 && s != []
    requires !(IndexOf(cfg, s[0].price) == IndexOf(cfg, x.price) && Better(x.side, x.price, s[0].price))
    ensures WorseSlotmate(cfg, s, x) <==> WorseSlotmate(cfg, s[1..], x)
  {
    hide IndexOf;
    if WorseSlotmate(cfg, s, x) {
      var i :| 0 <= i < |s| && IndexOf(cfg, s[i].price) == IndexOf(cfg, x.price) && Better(x.side, x.price, s[i].price);
      assert s[1..][i - 1] == s[i];
    }
  }

  // Nothing waits in a slot that is better than every waiting order's.
  lemma NoSlotmates(cfg: Config, s: seq<Order>, x: Order)
    requires cfg.tick > 0 && s != [] && PriceSorted(x.side, s) && Better(x.side, x.price, s[0].price)
    requires IndexOf(cfg, s[0].price) != IndexOf(cfg, x.price)
    ensures !WorseSlotmate(cfg, s, x)
  {
    hide IndexOf;
    SlotsOrdered(cfg, x.price, s[0].price);
    SlotsOrdered(cfg, s[0].price, x.price);
    forall i | 0 <= i < |s| ensures IndexOf(cfg, s[i].price) != IndexOf(cfg, x.price) {
      SlotsOrdered(cfg, s[0].price, s[i].price);
      SlotsOrdered(cfg, s[i].price, s[0].price);
      assert i > 0 ==> !Better(x.side, s[i].price, s[0].price);
    }
  }

  // ---------------------------------------------------------------------------------------------
  // Whole runs
  // ---------------------------------------------------------------------------------------------

  // Each command has the result, the trades and the removals of the price-time matcher.
  ghost predicate SameEffect(cfg: Config, cs: seq<Command>, k: nat)
    requires cfg.tick > 0 && k < |cs|
  {
    var e, f := SlotStep(cfg, SlotRun(cfg, EmptySlots, cs[..k]), cs[k]), Step(cfg, Run(cfg, EmptyBook, cs[..k]), cs[k]);
    e.result == f.result && e.trades == f.trades && e.victims == f.victims
  }

  ghost predicate PriceTime(cfg: Config, cs: seq<Command>)
    requires cfg.tick > 0
  {
    forall k :: 0 <= k < |cs| ==> SameEffect(cfg, cs, k)
  }

  // The price of some order, and none is better; the sentinel if there is no order.
  ghost predicate IsBestPrice(side: Side, s: seq<Order>, p: int) {
    if s == [] then p == EmptySentinel(side)
    else (exists k :: 0 <= k < |s| && s[k].price == p) && forall k :: 0 <= k < |s| ==> !Better(side, s[k].price, p)
  }

  // The tracked prices are the best prices.
  ghost predicate Tracked(b: SlotBook) {
    IsBestPrice(Buy, b.book.bids, b.bestBid) && IsBestPrice(Sell, b.book.asks, b.bestAsk)
  }

  lemma EmptyFair(cfg: Config, prices: set<int>)
    requires Fair(cfg, prices)
    ensures FairBook(cfg, prices, EmptyBook)
  {
  }

  lemma FairSame(cfg: Config, prices: set<int>, cs: seq<Command>)
    requires Fair(cfg, prices) && AdmitsAll(cfg, prices, cs)
    ensures cfg.tick > 0 && PriceTime(cfg, cs) && Tracked(SlotRun(cfg, EmptySlots, cs))
  {
    hide Fair, FairBook, Run, SlotRun, Step, SlotStep, Admits, OfBook, Tracked;
    EmptyFair(cfg, prices);
    FairTick(cfg, prices);
    NothingTracked();
    forall k | 0 <= k < |cs| ensures SameEffect(cfg, cs, k) {
      FairRun(cfg, prices, EmptyBook, cs[..k]);
      FairStep(cfg, prices, Run(cfg, EmptyBook, cs[..k]), cs[k]);
    }
    FairRun(cfg, prices, EmptyBook, cs);
    FairTracked(cfg, prices, Run(cfg, EmptyBook, cs));
  }

  lemma FairTracked(cfg: Config, prices: set<int>, b: Book)
    requires FairBook(cfg, prices, b)
    ensures Tracked(OfBook(b))
  {
    hide FairBook;
    FairSide(cfg, prices, b, Buy);
    FairSide(cfg, prices, b, Sell);
    assert SideOf(b, Buy) == b.bids && SideOf(b, Sell) == b.asks;
    SortedBest(Buy, b.bids);
    SortedBest(Sell, b.asks);
  }

  lemma SortedBest(side: Side, s: seq<Order>)
    requires PriceSorted(side, s)
    ensures IsBestPrice(side, s, TrueBest(side, s))
  {
    if s != [] {
      assert s[0].price == TrueBest(side, s);
      assert forall k :: 0 < k < |s| ==> !Better(side, s[k].price, s[0].price);
    }
  }

  // ---------------------------------------------------------------------------------------------
  // Two limit orders on one side, whatever their prices
  // ---------------------------------------------------------------------------------------------

  function LimitOrder(id: int, price: int, side: Side): NewOrder {
    NewOrder(id, price, 1, 1, side, Limit)
  }

  function RestingAt(id: int, price: int, side: Side): Order {
    Order(id, price, 1, 1, 1, id, side)
  }

  lemma SlotRunSnoc(cfg: Config, cs: seq<Command>, c: Command)
    requires cfg.tick > 0
    ensures SlotRun(cfg, EmptySlots, cs + [c]) == SlotStep(cfg, SlotRun(cfg, EmptySlots, cs), c).state
    ensures Run(cfg, EmptyBook, cs + [c]) == Step(cfg, Run(cfg, EmptyBook, cs), c).book
  {
    assert (cs + [c])[..|cs|] == cs;
  }

  // A limit order that finds the other side empty rests.
  lemma Rests(cfg: Config, b: SlotBook, o: NewOrder)
    requires ValidConfig(cfg) && o.kind.Limit? && o.quantity > 0 && InRange(cfg, o.price)
    requires !IsResting(b.book, o.id) && Resting(b.book) < cfg.maxOrders
    requires SideOf(b.book, Opposite(o.side)) == [] && BestOf(b, Opposite(o.side)) == EmptySentinel(Opposite(o.side))
    ensures var x, later := Residual(o, o.quantity, b.book.lastArrival + 1), b.book.(lastArrival := b.book.lastArrival + 1);
      && SlotSubmit(cfg, b, o).state == SlotAdd(cfg, b.(book := later), x)
      && Submit(cfg, b.book, o).book == WithSide(later, x.side, Insert(SideOf(later, x.side), x))
  {
    hide Insert, SlotInsert, Find, SlotAdd;
    var opp := Opposite(o.side);
    assert WithSide(b.book, opp, []) == b.book && WithBest(b, opp, EmptySentinel(opp)) == b;
  }

  // The books after two such orders.
  function TwoQueued(side: Side, s: seq<Order>): Book {
    WithSide(Book([], [], 2, 0), side, s)
  }

  lemma TwoRest(cfg: Config, side: Side, p: int, q: int)
    requires ValidConfig(cfg) && cfg.maxOrders >= 2 && InRange(cfg, p) && InRange(cfg, q)
    ensures var cs, x, y := [New(LimitOrder(1, p, side)), New(LimitOrder(2, q, side))], RestingAt(1, p, side), RestingAt(2, q, side);
      && SlotRun(cfg, EmptySlots, cs)
         == WithBest(SlotBook(TwoQueued(side, SlotInsert(cfg, [x], y)), BID_EMPTY, ASK_EMPTY), side, BetterOf(y, p))
      && Run(cfg, EmptyBook, cs) == TwoQueued(side, Insert([x], y))
  {
    hide Run, SlotRun, SlotStep, Step;
    var c, d, x, y := New(LimitOrder(1, p, side)), New(LimitOrder(2, q, side)), RestingAt(1, p, side), RestingAt(2, q, side);
    RunNothing(cfg);
    OneRests(cfg, side, p);
    SlotRunSnoc(cfg, [], c);
    SlotRunSnoc(cfg, [c], d);
    assert [] + [c] == [c] && [c] + [d] == [c, d];
    SecondRests(cfg, side, p, q);
  }

  lemma RunNothing(cfg: Config)
    requires cfg.tick > 0
    ensures SlotRun(cfg, EmptySlots, []) == EmptySlots && Run(cfg, EmptyBook, []) == EmptyBook
  {
  }

  function OneQueued(side: Side, x: Order): Book {
    WithSide(Book([], [], 1, 0), side, [x])
  }

  lemma OneRests(cfg: Config, side: Side, p: int)
    requires ValidConfig(cfg) && cfg.maxOrders >= 2 && InRange(cfg, p)
    ensures var c, x := New(LimitOrder(1, p, side)), RestingAt(1, p, side);
      && SlotStep(cfg, EmptySlots, c).state == WithBest(SlotBook(OneQueued(side, x), BID_EMPTY, ASK_EMPTY), side, p)
      && Step(cfg, EmptyBook, c).book == OneQueued(side, x)
  {
    hide SlotSubmit, Submit;
    Rests(cfg, EmptySlots, LimitOrder(1, p, side));
  }

  lemma SecondRests(cfg: Config, side: Side, p: int, q: int)
    requires ValidConfig(cfg) && cfg.maxOrders >= 2 && InRange(cfg, p) && InRange(cfg, q)
    ensures var d, x, y := New(LimitOrder(2, q, side)), RestingAt(1, p, side), RestingAt(2, q, side);
      var b := WithBest(SlotBook(OneQueued(side, x), BID_EMPTY, ASK_EMPTY), side, p);
      && SlotStep(cfg, b, d).state
         == WithBest(SlotBook(TwoQueued(side, SlotInsert(cfg, [x], y)), BID_EMPTY, ASK_EMPTY), side, BetterOf(y, p))
      && Step(cfg, OneQueued(side, x), d).book == TwoQueued(side, Insert([x], y))
  {
    hide SlotSubmit, Submit, SlotInsert, Insert;
    var x := RestingAt(1, p, side);
    var b := WithBest(SlotBook(OneQueued(side, x), BID_EMPTY, ASK_EMPTY), side, p);
    assert !IsResting(b.book, 2) by { FindOther(x); }
    Rests(cfg, b, LimitOrder(2, q, side));
  }

  lemma FindOther(x: Order)
    requires x.id == 1
    ensures Find([x], 2) == -1 && Find([], 2) == -1
  {
    assert [x][1..] == [];
  }

  // ---------------------------------------------------------------------------------------------
  // Taking the first of two
  // ---------------------------------------------------------------------------------------------

  function Taker(id: int, side: Side): NewOrder {
    NewOrder(id, 0, 1, 2, side, Market)
  }

  // One unit of the first order is taken, whatever it costs.
  lemma TakesFirst(cfg: Config, o: NewOrder, opp: seq<Order>, best: int, tradeId: int)
    requires cfg.tick > 0 && best != EmptySentinel(Opposite(o.side)) && Crosses(o, best) && Here(cfg, opp, best)
    requires opp[0].remaining == 1 && opp[0].participant != o.participant
    ensures SlotMatch(cfg, o, opp, best, 1, tradeId)
         == SlotResult(MatchResult(opp[1..], 0, [TradeFor(o, opp[0], 1, tradeId)], [], Exhausted),
                       BestAfter(cfg, Opposite(o.side), opp[1..], best))
  {
    hide BestAfter, IndexOf;
    var none: seq<Order> := [];
    assert [TradeFor(o, opp[0], 1, tradeId)] + [] == [TradeFor(o, opp[0], 1, tradeId)] && none + none == none;
  }

  lemma MatchTakesFirst(stp: StpPolicy, o: NewOrder, opp: seq<Order>, tradeId: int)
    requires opp != [] && Crosses(o, opp[0].price) && opp[0].remaining == 1 && opp[0].participant != o.participant
    ensures Match(stp, o, opp, 1, tradeId) == MatchResult(opp[1..], 0, [TradeFor(o, opp[0], 1, tradeId)], [], Exhausted)
  {
    var none: seq<Order> := [];
    assert [TradeFor(o, opp[0], 1, tradeId)] + [] == [TradeFor(o, opp[0], 1, tradeId)] && none + none == none;
  }

  // An accepted order of one unit that fills: trades, queue and tracked price.
  lemma SubmitTakes(cfg: Config, b: SlotBook, o: NewOrder)
    requires ValidConfig(cfg) && o.quantity == 1 && SlotRefusal(cfg, b, o).Ok?
    requires var side := Opposite(o.side);
      && BestOf(b, side) != EmptySentinel(side) && Crosses(o, BestOf(b, side)) && Here(cfg, SideOf(b.book, side), BestOf(b, side))
      && SideOf(b.book, side)[0].remaining == 1 && SideOf(b.book, side)[0].participant != o.participant
    ensures var e, side := SlotSubmit(cfg, b, o), Opposite(o.side);
      var s := SideOf(b.book, side);
      && e.trades == [TradeFor(o, s[0], 1, b.book.nextTradeId)]
      && SideOf(e.state.book, side) == s[1..] && BestOf(e.state, side) == BestAfter(cfg, side, s[1..], BestOf(b, side))
      && SideOf(e.state.book, o.side) == SideOf(b.book, o.side) && BestOf(e.state, o.side) == BestOf(b, o.side)
  {
    hide SlotRefusal, SlotMatch, BestAfter, Here, SlotAdd;
    var side := Opposite(o.side);
    assert SideOf(b.book, side) != [] by { HereSome(cfg, SideOf(b.book, side), BestOf(b, side)); }
    TakesFirst(cfg, o, SideOf(b.book, side), BestOf(b, side), b.book.nextTradeId);
  }

  lemma ListTakes(cfg: Config, b: Book, o: NewOrder)
    requires o.quantity == 1 && Refusal(cfg, b, o).Ok?
    requires var s := SideOf(b, Opposite(o.side));
      s != [] && Crosses(o, s[0].price) && s[0].remaining == 1 && s[0].participant != o.participant
    ensures var e, s := Submit(cfg, b, o), SideOf(b, Opposite(o.side));
      && e.trades == [TradeFor(o, s[0], 1, b.nextTradeId)]
      && SideOf(e.book, Opposite(o.side)) == s[1..] && SideOf(e.book, o.side) == SideOf(b, o.side)
  {
    hide Refusal, Match, Insert;
    MatchTakesFirst(cfg.stp, o, SideOf(b, Opposite(o.side)), b.nextTradeId);
  }

  lemma {:induction false} NotThere(s: seq<Order>, id: int)
    requires forall i :: 0 <= i < |s| ==> s[i].id != id
    ensures Find(s, id) == -1
  {
  }

  // ---------------------------------------------------------------------------------------------
  // Two prices in one slot
  // ---------------------------------------------------------------------------------------------

  function Offers(first: int, second: int): seq<Command> {
    [New(LimitOrder(1, first, Sell)), New(LimitOrder(2, second, Sell))]
  }

  lemma SlotmatesQueue(cfg: Config, p: int, q: int)
    requires ValidConfig(cfg) && cfg.maxOrders >= 2 && InRange(cfg, p) && InRange(cfg, q)
    requires IndexOf(cfg, p) == IndexOf(cfg, q)
    ensures SlotRun(cfg, EmptySlots, Offers(p, q))
         == SlotBook(Book([], [RestingAt(1, p, Sell), RestingAt(2, q, Sell)], 2, 0), BID_EMPTY, if q < p then q else p)
    ensures Run(cfg, EmptyBook, Offers(p, q))
         == Book([], if q < p then [RestingAt(2, q, Sell), RestingAt(1, p, Sell)] else [RestingAt(1, p, Sell), RestingAt(2, q, Sell)], 2, 0)
  {
    hide Run, SlotRun, IndexOf;
    TwoRest(cfg, Sell, p, q);
    var x, y := RestingAt(1, p, Sell), RestingAt(2, q, Sell);
    assert [x][1..] == [];
    assert SlotInsert(cfg, [x], y) == [x, y];
    assert Insert([x], y) == if q < p then [y, x] else [x, y];
  }

  /** The dearer of two offers in one slot, if it came first, trades first. */
  lemma SlotmatesMistrade(cfg: Config, lo: int, hi: int)
    requires ValidConfig(cfg) && cfg.maxOrders >= 2 && InRange(cfg, lo) && InRange(cfg, hi)
    requires lo < hi && IndexOf(cfg, lo) == IndexOf(cfg, hi)
    ensures !PriceTime(cfg, Offers(hi, lo) + [New(Taker(3, Buy))])
  {
    hide Run, SlotRun, IndexOf, SlotSubmit, Submit;
    var cs, o := Offers(hi, lo), Taker(3, Buy);
    SlotmatesQueue(cfg, hi, lo);
    var b, c := SlotRun(cfg, EmptySlots, cs), Run(cfg, EmptyBook, cs);
    NotThere(b.book.asks, 3);
    NotThere(c.asks, 3);
    NotThere([], 3);
    SubmitTakes(cfg, b, o);
    ListTakes(cfg, c, o);
    assert (cs + [New(o)])[..2] == cs && (cs + [New(o)])[2] == New(o);
    assert !SameEffect(cfg, cs + [New(o)], 2);
  }

  /** Once the cheaper of two offers in one slot is cancelled, its price is still the tracked one. */
  lemma SlotmatesStale(cfg: Config, lo: int, hi: int)
    requires ValidConfig(cfg) && cfg.maxOrders >= 2 && InRange(cfg, lo) && InRange(cfg, hi)
    requires lo < hi && IndexOf(cfg, lo) == IndexOf(cfg, hi)
    ensures SlotRun(cfg, EmptySlots, Offers(lo, hi) + [Cancel(1)]) == SlotBook(Book([], [RestingAt(2, hi, Sell)], 2, 0), BID_EMPTY, lo)
  {
    hide Run, SlotRun, IndexOf;
    var cs := Offers(lo, hi);
    SlotmatesQueue(cfg, lo, hi);
    SlotRunSnoc(cfg, cs, Cancel(1));
    var x, y := RestingAt(1, lo, Sell), RestingAt(2, hi, Sell);
    assert Find([x, y], 1) == 0 && Find([], 1) == -1;
    assert [x, y][..0] + [x, y][1..] == [y];
    assert Occupied(cfg, [y], IndexOf(cfg, lo)) by { assert [y][0] == y; }
  }

  // ---------------------------------------------------------------------------------------------
  // A price between two ticks behind a better one
  // ---------------------------------------------------------------------------------------------

  function Behind(side: Side, good: int, odd: int): seq<Command> {
    [New(LimitOrder(1, good, side)), New(LimitOrder(2, odd, side))]
  }

  // `odd` lies between two ticks, and `good` is better and in another slot.
  ghost predicate OddBehind(cfg: Config, side: Side, good: int, odd: int) {
    && ValidConfig(cfg) && cfg.maxOrders >= 2 && InRange(cfg, good) && InRange(cfg, odd)
    && Better(side, good, odd) && !OnGrid(cfg, odd) && IndexOf(cfg, good) != IndexOf(cfg, odd)
  }

  lemma BehindQueue(cfg: Config, side: Side, good: int, odd: int)
    requires OddBehind(cfg, side, good, odd)
    ensures var x, y := RestingAt(1, good, side), RestingAt(2, odd, side);
      && SlotRun(cfg, EmptySlots, Behind(side, good, odd)) == WithBest(SlotBook(TwoQueued(side, [x, y]), BID_EMPTY, ASK_EMPTY), side, good)
      && Run(cfg, EmptyBook, Behind(side, good, odd)) == TwoQueued(side, [x, y])
  {
    hide Run, SlotRun, IndexOf, OnGrid;
    TwoRest(cfg, side, good, odd);
    var x, y := RestingAt(1, good, side), RestingAt(2, odd, side);
    SlotsOrdered(cfg, good, odd);
    SlotsOrdered(cfg, odd, good);
    assert [x][1..] == [];
    assert SlotInsert(cfg, [x], y) == [x, y] && Insert([x], y) == [x, y];
  }

  function Emptied(side: Side, good: int, odd: int): seq<Command> {
    Behind(side, good, odd) + [New(Taker(3, Opposite(side)))]
  }

  /** Once the better order is taken, the level is tracked under its grid price, not under its order's. */
  lemma BehindMistracked(cfg: Config, side: Side, good: int, odd: int)
    requires OddBehind(cfg, side, good, odd)
    ensures var b, c := SlotRun(cfg, EmptySlots, Emptied(side, good, odd)), Run(cfg, EmptyBook, Emptied(side, good, odd));
      && SideOf(b.book, side) == [RestingAt(2, odd, side)] == SideOf(c, side)
      && BestOf(b, side) == PriceAt(cfg, IndexOf(cfg, odd)) < odd
      && SideOf(b.book, Opposite(side)) == [] == SideOf(c, Opposite(side))
      && BestOf(b, Opposite(side)) == EmptySentinel(Opposite(side))
  {
    hide Run, SlotRun, IndexOf, SlotSubmit, Submit, OnGrid;
    var cs, o := Behind(side, good, odd), Taker(3, Opposite(side));
    BehindQueue(cfg, side, good, odd);
    var b, c := SlotRun(cfg, EmptySlots, cs), Run(cfg, EmptyBook, cs);
    SlotRunSnoc(cfg, cs, New(o));
    var x, y := RestingAt(1, good, side), RestingAt(2, odd, side);
    NotThere([x, y], 3);
    NotThere([], 3);
    SubmitTakes(cfg, b, o);
    ListTakes(cfg, c, o);
    assert [x, y][1..] == [y];
    SlotFloor(cfg, odd);
  }

  // An order that accepts the grid price and not the order's own, or the other way round.
  function Chooser(cfg: Config, side: Side, odd: int): NewOrder
    requires cfg.tick > 0
  {
    NewOrder(4, if side.Sell? then PriceAt(cfg, IndexOf(cfg, odd)) else odd, 1, 2, Opposite(side), Ioc)
  }

  /** An incoming limit between the two prices then trades where it should not, if they are offers, and does not trade
      where it should, if they are bids. */
  lemma BehindMistrade(cfg: Config, side: Side, good: int, odd: int)
    requires OddBehind(cfg, side, good, odd)
    ensures !PriceTime(cfg, Emptied(side, good, odd) + [New(Chooser(cfg, side, odd))])
  {
    hide Run, SlotRun, IndexOf, OnGrid, PriceAt;
    var cs, o := Emptied(side, good, odd), Chooser(cfg, side, odd);
    BehindMistracked(cfg, side, good, odd);
    var b, c := SlotRun(cfg, EmptySlots, cs), Run(cfg, EmptyBook, cs);
    ChooserEffects(cfg, side, odd, b, c);
    assert (cs + [New(o)])[..3] == cs && (cs + [New(o)])[3] == New(o);
    assert !SameEffect(cfg, cs + [New(o)], 3);
  }

  lemma ChooserEffects(cfg: Config, side: Side, odd: int, b: SlotBook, c: Book)
    requires ValidConfig(cfg) && InRange(cfg, odd)
    requires SideOf(b.book, side) == [RestingAt(2, odd, side)] == SideOf(c, side)
    requires BestOf(b, side) == PriceAt(cfg, IndexOf(cfg, odd)) < odd
    requires SideOf(b.book, Opposite(side)) == [] == SideOf(c, Opposite(side))
    ensures var o := Chooser(cfg, side, odd);
      && |SlotSubmit(cfg, b, o).trades| == (if side.Sell? then 1 else 0)
      && |Submit(cfg, c, o).trades| == (if side.Sell? then 0 else 1)
  {
    hide SlotSubmit, Submit, SlotMatch, Match, IndexOf, PriceAt;
    var o, y := Chooser(cfg, side, odd), RestingAt(2, odd, side);
    RangeIndex(cfg, odd);
    SlotPrice(cfg, IndexOf(cfg, odd));
    NotThere([y], 4);
    NotThere([], 4);
    assert Here(cfg, [y], PriceAt(cfg, IndexOf(cfg, odd)));
    if side.Sell? {
      SubmitTakes(cfg, b, o);
      ListPasses(cfg, c, o);
    } else {
      SlotPasses(cfg, b, o);
      ListTakes(cfg, c, o);
    }
  }

  // An order that does not cross trades nothing.
  lemma SlotPasses(cfg: Config, b: SlotBook, o: NewOrder)
    requires cfg.tick > 0 && !Crosses(o, BestOf(b, Opposite(o.side)))
    ensures SlotSubmit(cfg, b, o).trades == []
  {
    hide SlotRefusal, SlotAdd;
  }

  lemma ListPasses(cfg: Config, b: Book, o: NewOrder)
    requires var s := SideOf(b, Opposite(o.side)); s != [] && !Crosses(o, s[0].price)
    ensures Submit(cfg, b, o).trades == []
  {
    hide Refusal, Insert;
  }

  // ---------------------------------------------------------------------------------------------
  // Exactly which prices can be admitted
  // ---------------------------------------------------------------------------------------------

  ghost predicate AllPriceTime(cfg: Config, prices: set<int>)
    requires cfg.tick > 0
  {
    forall cs :: AdmitsAll(cfg, prices, cs) ==> PriceTime(cfg, cs)
  }

  ghost predicate AllTracked(cfg: Config, prices: set<int>)
    requires cfg.tick > 0
  {
    forall cs :: AdmitsAll(cfg, prices, cs) ==> Tracked(SlotRun(cfg, EmptySlots, cs))
  }

  lemma OffersAdmitted(cfg: Config, prices: set<int>, side: Side, p: int, q: int, c: Command)
    requires p in prices && q in prices && Admits(cfg, prices, c)
    ensures AdmitsAll(cfg, prices, [New(LimitOrder(1, p, side)), New(LimitOrder(2, q, side))] + [c])
  {
  }

  lemma EmptiedAdmitted(cfg: Config, prices: set<int>, side: Side, good: int, odd: int, c: Command)
    requires good in prices && odd in prices && Admits(cfg, prices, c)
    ensures AdmitsAll(cfg, prices, Emptied(side, good, odd)) && AdmitsAll(cfg, prices, Emptied(side, good, odd) + [c])
  {
  }

  // A price between two ticks next to any other price breaks both.
  lemma UnfairBreaks(cfg: Config, prices: set<int>, odd: int, other: int)
    requires ValidConfig(cfg) && cfg.maxOrders >= 2 && forall p :: p in prices ==> InRange(cfg, p)
    requires odd in prices && other in prices && !OnGrid(cfg, odd) && odd != other
    ensures !AllPriceTime(cfg, prices) && !AllTracked(cfg, prices)
  {
    hide PriceTime, SlotRun, AdmitsAll, IndexOf, OnGrid;
    if IndexOf(cfg, odd) == IndexOf(cfg, other) {
      var lo, hi := if odd < other then odd else other, if odd < other then other else odd;
      SlotmatesMistrade(cfg, lo, hi);
      OffersAdmitted(cfg, prices, Sell, hi, lo, New(Taker(3, Buy)));
      SlotmatesStale(cfg, lo, hi);
      OffersAdmitted(cfg, prices, Sell, lo, hi, Cancel(1));
      assert !Tracked(SlotRun(cfg, EmptySlots, Offers(lo, hi) + [Cancel(1)]));
    } else {
      var side := if other < odd then Sell else Buy;
      BehindMistrade(cfg, side, other, odd);
      EmptiedAdmitted(cfg, prices, side, other, odd, New(Chooser(cfg, side, odd)));
      BehindMistracked(cfg, side, other, odd);
      assert !Tracked(SlotRun(cfg, EmptySlots, Emptied(side, other, odd)));
    }
  }

  /** Every run of commands has the results, trades and removals of price-time matching if and only if the limit prices
      admitted all lie on the tick grid, or there is only one. */
  lemma PriceTimeIff(cfg: Config, prices: set<int>)
    requires ValidConfig(cfg) && cfg.maxOrders >= 2 && forall p :: p in prices ==> InRange(cfg, p)
    ensures AllPriceTime(cfg, prices) <==> Fair(cfg, prices)
  {
    hide PriceTime, SlotRun, AdmitsAll, OnGrid;
    if Fair(cfg, prices) {
      forall cs | AdmitsAll(cfg, prices, cs) ensures PriceTime(cfg, cs) {
        FairSame(cfg, prices, cs);
      }
    } else {
      var p, q :| p in prices && q in prices && !OnGrid(cfg, p) && p != q;
      UnfairBreaks(cfg, prices, p, q);
    }
  }

  /** The same prices are exactly those under which the tracked price is the best price after every run. */
  lemma TrackedIff(cfg: Config, prices: set<int>)
    requires ValidConfig(cfg) && cfg.maxOrders >= 2 && forall p :: p in prices ==> InRange(cfg, p)
    ensures AllTracked(cfg, prices) <==> Fair(cfg, prices)
  {
    hide Tracked, SlotRun, AdmitsAll, OnGrid;
    if Fair(cfg, prices) {
      forall cs | AdmitsAll(cfg, prices, cs) ensures Tracked(SlotRun(cfg, EmptySlots, cs)) {
        FairSame(cfg, prices, cs);
      }
    } else {
      var p, q :| p in prices && q in prices && !OnGrid(cfg, p) && p != q;
      UnfairBreaks(cfg, prices, p, q);
    }
  }
}
