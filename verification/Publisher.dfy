/** The market-data publisher: it keeps the mirror and sends what a subscriber needs to keep its ladder. */
module Publishers {
  import opened Types
  import opened Matcher
  import opened MatcherLaws
  import opened Conservation
  import opened Events
  import opened Reports
  import opened Mirrors
  import opened BookMirrors
  import opened Ladders
  import opened Streams

  type Totals = map<int, int>

  function TotalAt(t: Totals, price: int): Option<int> {
    if price in t then Some(t[price]) else None
  }

  function TotalOf(q: seq<Order>): Option<int> {
    if q == [] then None else Some(SumRemaining(q))
  }

  ghost predicate TotalsMatch(bids: Totals, asks: Totals, m: Mirror) {
    && (forall price {:trigger TotalAt(bids, price)} :: TotalAt(bids, price) == TotalOf(QueueAt(m, Buy, price)))
    && (forall price {:trigger TotalAt(asks, price)} :: TotalAt(asks, price) == TotalOf(QueueAt(m, Sell, price)))
  }

  // Feed messages are numbered 1, 2, 3, ... without a gap.
  ghost predicate Numbered(ms: seq<Msg>) {
    forall i :: 0 <= i < |ms| ==> ms[i].feedSeq == i + 1
  }

  lemma {:induction false} SumPositive(q: seq<Order>)
    requires Positive(q)
    ensures SumRemaining(q) >= 0 && (SumRemaining(q) == 0 <==> q == [])
  {
    if q != [] {
      SumPositive(q[1..]);
    }
  }

  // After the level changed and its entry was replaced, everything matches again.
  lemma TotalsMove(bids: Totals, asks: Totals, m: Mirror, m': Mirror, side: Side, price: int, t: Totals)
    requires TotalsMatch(bids, asks, m) && Moves(m, m', Location(side, price))
    requires forall p {:trigger TotalAt(t, p)} ::
      TotalAt(t, p) == if p == price then TotalOf(QueueAt(m', side, price)) else TotalAt(if side.Buy? then bids else asks, p)
    ensures if side.Buy? then TotalsMatch(t, asks, m') else TotalsMatch(bids, t, m')
  {
    hide QueueAt, SumRemaining, TotalOf, TotalAt;
  }

  lemma ShowsMove(d: Depth, d': Depth, m: Mirror, m': Mirror, side: Side, price: int)
    requires Shows(d, m) && Moves(m, m', Location(side, price)) && !d'.inBurst
    requires forall sd, p {:trigger RungAt(d', sd, p)} ::
      RungAt(d', sd, p) == if sd == side && p == price then AggOf(QueueAt(m', side, price)) else RungAt(d, sd, p)
    ensures Shows(d', m')
  {
    hide QueueAt, SumRemaining, AggOf, RungAt;
  }

  // ---------------------------------------------------------------------------------------------
  // What is sent
  // ---------------------------------------------------------------------------------------------

  // The message for a level whose total went from one quantity to another; none if it did not move.
  function DeltaFor(n: int, m: Mirror, m': Mirror, side: Side, price: int): seq<Msg> {
    var was, now := SumRemaining(QueueAt(m, side, price)), SumRemaining(QueueAt(m', side, price));
    if was == now then []
    else [L2Delta(n, side, if was == 0 then Add else if now == 0 then Delete else Modify, price, now, |QueueAt(m', side, price)|)]
  }

  /** A level is announced exactly if its total moved: as added if no order waited there before, as deleted if none
      waits there now, as modified otherwise, always with its total and its number of orders. */
  lemma DeltaSays(n: int, m: Mirror, m': Mirror, side: Side, price: int)
    requires Sane(m) && Sane(m')
    ensures var d, q, q' := DeltaFor(n, m, m', side, price), QueueAt(m, side, price), QueueAt(m', side, price);
      && (d == [] <==> SumRemaining(q) == SumRemaining(q'))
      && (d != [] ==>
            && d == [L2Delta(n, side, d[0].l2, price, SumRemaining(q'), |q'|)]
            && (d[0].l2 == Add <==> q == []) && (d[0].l2 == Delete <==> q' == []))
  {
    hide AtPrice, SumRemaining;
    AtPositive(ListOf(m, side), price);
    AtPositive(ListOf(m', side), price);
    SumPositive(QueueAt(m, side, price));
    SumPositive(QueueAt(m', side, price));
    EmptySum();
  }

  // The messages one event gives rise to, numbered from `n` on.
  function MessagesFor(n: int, m: Mirror, e: Event): seq<Msg> {
    var m' := Apply(m, e);
    match e
    case TradeEvent(t, _) =>
      [TradeTick(n, t), L3Fill(n + 1, t.passiveId, t.id, t.price, t.quantity, LeftOf(m', t.passiveId))]
      + DeltaFor(n + 2, m, m', Opposite(t.aggressorSide), t.price)
    case StatusEvent(_, _, _) => []
    case OrderUpdate(action, x, _, _) =>
      if action.NotRested? then [] else [L3Order(n, action, x)] + DeltaFor(n + 1, m, m', x.side, x.price)
  }

  // The resting orders of one side as a burst sends them.
  function BurstFor(n: int, side: Side, s: seq<Order>): (ms: seq<Msg>)
    ensures |ms| == |s|
  {
    seq(|s|, i requires 0 <= i < |s| => L3Order(n + i, Rested, s[i].(side := side)))
  }

  // ---------------------------------------------------------------------------------------------
  // What the messages say
  // ---------------------------------------------------------------------------------------------

  function TicksIn(ms: seq<Msg>): seq<Trade> {
    if ms == [] then []
    else TicksIn(ms[..|ms| - 1]) + if ms[|ms| - 1].TradeTick? then [ms[|ms| - 1].trade] else []
  }

  // The fills of resting orders, as far as a trade tells them.
  datatype Fill = Fill(passiveId: int, tradeId: int, price: int, quantity: int)

  function FillsIn(ms: seq<Msg>): seq<Fill> {
    if ms == [] then []
    else
      var m := ms[|ms| - 1];
      FillsIn(ms[..|ms| - 1]) + if m.L3Fill? then [Fill(m.passiveId, m.tradeId, m.price, m.quantity)] else []
  }

  function FillsOfTrades(ts: seq<Trade>): seq<Fill> {
    if ts == [] then []
    else
      var t := ts[|ts| - 1];
      FillsOfTrades(ts[..|ts| - 1]) + [Fill(t.passiveId, t.id, t.price, t.quantity)]
  }

  datatype Change = Change(action: UpdateAction, order: Order)

  function ChangesIn(ms: seq<Msg>): seq<Change> {
    if ms == [] then []
    else
      var m := ms[|ms| - 1];
      ChangesIn(ms[..|ms| - 1]) + if m.L3Order? then [Change(m.action, m.order)] else []
  }

  // The updates that touch the book.
  function ChangesOf(us: seq<Update>): seq<Change> {
    if us == [] then []
    else
      var u := us[|us| - 1];
      ChangesOf(us[..|us| - 1]) + if u.action.NotRested? then [] else [Change(u.action, u.order)]
  }

  // The messages `ms` tell exactly these trades and updates.
  ghost predicate Tells(ms: seq<Msg>, ts: seq<Trade>, us: seq<Update>) {
    TicksIn(ms) == ts && FillsIn(ms) == FillsOfTrades(ts) && ChangesIn(ms) == ChangesOf(us)
  }

  lemma TellsOne(ms: seq<Msg>, m: Msg)
    ensures TicksIn(ms + [m]) == TicksIn(ms) + if m.TradeTick? then [m.trade] else []
    ensures FillsIn(ms + [m]) == FillsIn(ms) + if m.L3Fill? then [Fill(m.passiveId, m.tradeId, m.price, m.quantity)] else []
    ensures ChangesIn(ms + [m]) == ChangesIn(ms) + if m.L3Order? then [Change(m.action, m.order)] else []
  {
    assert (ms + [m])[..|ms|] == ms;
  }

  lemma TellsDelta(ms: seq<Msg>, ts: seq<Trade>, us: seq<Update>, n: int, m: Mirror, m': Mirror, side: Side, price: int)
    requires Tells(ms, ts, us)
    ensures Tells(ms + DeltaFor(n, m, m', side, price), ts, us)
  {
    hide TicksIn, FillsIn, ChangesIn, FillsOfTrades, ChangesOf, QueueAt, SumRemaining;
    var d := DeltaFor(n, m, m', side, price);
    if d == [] {
      assert ms + d == ms;
    } else {
      TellsOne(ms, d[0]);
    }
  }

  lemma TellsMoreTrades(ts: seq<Trade>, t: Trade)
    ensures FillsOfTrades(ts + [t]) == FillsOfTrades(ts) + [Fill(t.passiveId, t.id, t.price, t.quantity)]
  {
    assert (ts + [t])[..|ts|] == ts;
  }

  lemma TellsMoreUpdates(us: seq<Update>, u: Update)
    ensures ChangesOf(us + [u]) == ChangesOf(us) + if u.action.NotRested? then [] else [Change(u.action, u.order)]
  {
    assert (us + [u])[..|us|] == us;
  }

  lemma TellsNothing()
    ensures Tells([], TradesIn([]), UpdatesIn([]))
  {
  }

  // One more event, and the messages tell its trade or update.
  lemma TellsEvent(ms: seq<Msg>, ts: seq<Trade>, us: seq<Update>, n: int, m: Mirror, e: Event)
    requires Tells(ms, ts, us)
    ensures Tells(ms + MessagesFor(n, m, e), ts + TradesIn([e]), us + UpdatesIn([e]))
  {
    hide TicksIn, FillsIn, ChangesIn, FillsOfTrades, ChangesOf, Apply, DeltaFor, LeftOf, TradesIn, UpdatesIn;
    InOne(e);
    var m' := Apply(m, e);
    match e
    case TradeEvent(t, _) =>
      var tick, fill := TradeTick(n, t), L3Fill(n + 1, t.passiveId, t.id, t.price, t.quantity, LeftOf(m', t.passiveId));
      TellsOne(ms, tick);
      TellsOne(ms + [tick], fill);
      TellsMoreTrades(ts, t);
      assert us + [] == us;
      TellsDelta(ms + [tick] + [fill], ts + [t], us, n + 2, m, m', Opposite(t.aggressorSide), t.price);
      assert ms + MessagesFor(n, m, e) == ms + [tick] + [fill] + DeltaFor(n + 2, m, m', Opposite(t.aggressorSide), t.price);
    case StatusEvent(_, _, _) =>
      assert ms + [] == ms && ts + [] == ts && us + [] == us;
    case OrderUpdate(action, x, reason, _) =>
      TellsMoreUpdates(us, Update(action, x, reason));
      assert ts + [] == ts;
      if action.NotRested? {
        assert ms + [] == ms;
      } else {
        TellsOne(ms, L3Order(n, action, x));
        TellsDelta(ms + [L3Order(n, action, x)], ts, us + [Update(action, x, reason)], n + 1, m, m', x.side, x.price);
        assert ms + MessagesFor(n, m, e) == ms + [L3Order(n, action, x)] + DeltaFor(n + 1, m, m', x.side, x.price);
      }
  }

  class Publisher {
    const mirror: BookMirror
    var bidTotals: Totals
    var askTotals: Totals
    var feedSeq: int

    // Everything handed to the sinks.
    var sent: seq<Msg>

    // What a subscriber that folded everything sent so far shows.
    ghost function Subscriber(): Depth
      reads this
    {
      FoldAll(Blank, sent)
    }

    // Everything but the agreement with the mirror.
    ghost predicate Ready()
      reads this, mirror
    {
      mirror.Valid() && Sane(mirror.view) && feedSeq == |sent| && Numbered(sent)
    }

    /** A subscriber's ladder has exactly the mirror's levels, totals and order counts. */
    ghost predicate Valid()
      reads this, mirror
    {
      Ready() && TotalsMatch(bidTotals, askTotals, mirror.view) && Shows(Subscriber(), mirror.view)
    }

    constructor ()
      ensures Valid() && fresh(mirror) && sent == [] && mirror.view == Cleared
    {
      mirror := new BookMirror();
      bidTotals, askTotals, feedSeq, sent := map[], map[], 0, [];
    }

    method Send(m: Msg)
      requires Ready() && m.feedSeq == feedSeq + 1
      modifies this`feedSeq, this`sent
      ensures Ready() && sent == old(sent) + [m] && Subscriber() == Fold(old(Subscriber()), m)
    {
      FoldSnoc(Blank, sent, m);
      feedSeq := feedSeq + 1;
      sent := sent + [m];
    }

    // Publish the level if its total changed.
    method DiffLevel(side: Side, price: int, ghost m: Mirror)
      requires Ready() && Moves(m, mirror.view, Location(side, price)) && Sane(m)
      requires TotalsMatch(bidTotals, askTotals, m) && Shows(Subscriber(), m)
      modifies this`bidTotals, this`askTotals, this`feedSeq, this`sent
      ensures Valid() && mirror.view == old(mirror.view)
      ensures sent == old(sent) + DeltaFor(old(feedSeq) + 1, m, mirror.view, side, price)
    {
      hide Moves, AtPrice, SumRemaining, Sane, Numbered, TotalsMatch, FoldAll, Shows;
      var totals := if side.Buy? then bidTotals else askTotals;
      var newTotal := mirror.LevelTotal(side, price);
      var oldTotal := if price in totals then totals[price] else 0;
      LevelFacts(m, side, price);
      if newTotal == oldTotal {
        Unmoved(bidTotals, askTotals, Subscriber(), m, mirror.view, Location(side, price));
        return;
      }
      var l2 := if oldTotal == 0 then Add else if newTotal == 0 then Delete else Modify;
      var totals' := if newTotal == 0 then totals - {price} else totals[price := newTotal];
      TotalsMove(bidTotals, askTotals, m, mirror.view, side, price, totals');
      if side.Buy? {
        bidTotals := totals';
      } else {
        askTotals := totals';
      }
      var count := mirror.LevelOrderCount(side, price);
      ghost var d := Subscriber();
      Send(L2Delta(feedSeq + 1, side, l2, price, newTotal, count));
      ShowsMove(d, Subscriber(), m, mirror.view, side, price);
    }

    // The messages of a trade the mirror has already taken in.
    method PublishTrade(t: Trade, ghost m: Mirror)
      requires Ready() && Moves(m, mirror.view, Location(Opposite(t.aggressorSide), t.price)) && Sane(m)
      requires TotalsMatch(bidTotals, askTotals, m) && Shows(Subscriber(), m)
      modifies this`bidTotals, this`askTotals, this`feedSeq, this`sent
      ensures Valid() && mirror.view == old(mirror.view)
      ensures var n := old(feedSeq) + 1;
        sent == old(sent)
          + ([TradeTick(n, t), L3Fill(n + 1, t.passiveId, t.id, t.price, t.quantity, LeftOf(mirror.view, t.passiveId))]
             + DeltaFor(n + 2, m, mirror.view, Opposite(t.aggressorSide), t.price))
    {
      hide TotalsMatch, FoldAll, Shows, BookMirror.Valid, Sane, Moves, DeltaFor, LeftOf, Numbered;
      NotBurst(Subscriber(), m);
      Send(TradeTick(feedSeq + 1, t));
      var left := mirror.RemainingOf(t.passiveId);
      Send(L3Fill(feedSeq + 1, t.passiveId, t.id, t.price, t.quantity, left));
      DiffLevel(Opposite(t.aggressorSide), t.price, m);
    }

    method PublishUpdate(action: UpdateAction, x: Order, ghost m: Mirror)
      requires Ready() && Moves(m, mirror.view, Location(x.side, x.price)) && Sane(m) && !action.NotRested?
      requires TotalsMatch(bidTotals, askTotals, m) && Shows(Subscriber(), m)
      modifies this`bidTotals, this`askTotals, this`feedSeq, this`sent
      ensures Valid() && mirror.view == old(mirror.view)
      ensures var n := old(feedSeq) + 1;
        sent == old(sent) + ([L3Order(n, action, x)] + DeltaFor(n + 1, m, mirror.view, x.side, x.price))
    {
      hide TotalsMatch, FoldAll, Shows, BookMirror.Valid, Sane, Moves, DeltaFor, Numbered;
      NotBurst(Subscriber(), m);
      Send(L3Order(feedSeq + 1, action, x));
      DiffLevel(x.side, x.price, m);
    }

    /** One ring event: bring the mirror up to date and publish it. The subscriber follows. */
    method ApplyAndPublish(e: Event)
      requires Valid() && WellFormed(mirror.view, e)
      modifies mirror, this`bidTotals, this`askTotals, this`feedSeq, this`sent
      ensures Valid() && mirror.view == Apply(old(mirror.view), e)
      ensures sent == old(sent) + MessagesFor(old(feedSeq) + 1, old(mirror.view), e)
    {
      hide Numbered, TotalsMatch, FoldAll, Shows, BookMirror.Valid, Sane, Moves, WellFormed, DeltaFor, LeftOf, Apply;
      ghost var m := mirror.view;
      EventMoves(m, e);
      Unaffected(m, e);
      mirror.Handle(e);
      match e {
        case TradeEvent(t, _) =>
          PublishTrade(t, m);
        case StatusEvent(_, _, _) =>
        case OrderUpdate(action, x, _, _) =>
          if action.NotRested? {
            SameDepth(bidTotals, askTotals, Subscriber(), m, mirror.view);
          } else {
            PublishUpdate(action, x, m);
          }
      }
    }

    /** `pump` over a stretch of the ring: the mirror takes in every event, the subscriber keeps up, and what is sent
        tells exactly the trades and the order changes of those events, in order. */
    method Pump(es: seq<Event>)
      requires Valid() && AllWellFormed(mirror.view, es)
      modifies mirror, this`bidTotals, this`askTotals, this`feedSeq, this`sent
      ensures Valid() && mirror.view == ApplyAll(old(mirror.view), es)
      ensures old(sent) <= sent && Tells(sent[|old(sent)|..], TradesIn(es), UpdatesIn(es))
    {
      hide Publisher.Valid, WellFormed, Apply, MessagesFor, Tells, TradesIn, UpdatesIn;
      var i := 0;
      ghost var told := [];
      TellsNothing();
      while i < |es|
        invariant 0 <= i <= |es| && Valid() && AllWellFormed(mirror.view, es[i..])
        invariant ApplyAll(mirror.view, es[i..]) == ApplyAll(old(mirror.view), es)
        invariant sent == old(sent) + told && Tells(told, TradesIn(es[..i]), UpdatesIn(es[..i]))
      {
        assert es[i..][1..] == es[i + 1..];
        ghost var more := MessagesFor(feedSeq + 1, mirror.view, es[i]);
        TellsEvent(told, TradesIn(es[..i]), UpdatesIn(es[..i]), feedSeq + 1, mirror.view, es[i]);
        InConcat(es[..i], [es[i]]);
        assert es[..i + 1] == es[..i] + [es[i]];
        ApplyAndPublish(es[i]);
        told := told + more;
        i := i + 1;
      }
      assert es[..i] == es && sent[|old(sent)|..] == told;
    }

    // Rebuild the mirror from what the snapshot source offers.
    method Load(orders: seq<Order>)
      requires mirror.Valid() && Positive(orders)
      modifies mirror
      ensures mirror.Valid() && Sane(mirror.view) && mirror.view == LoadedMirror(orders)
    {
      hide Apply;
      mirror.Clear();
      var i := 0;
      while i < |orders|
        invariant 0 <= i <= |orders| && mirror.Valid() && Sane(mirror.view) && mirror.view == LoadedMirror(orders[..i])
      {
        assert orders[..i + 1][..i] == orders[..i];
        EventMoves(mirror.view, OrderUpdate(Rested, orders[i], Ok, 0));
        mirror.Handle(OrderUpdate(Rested, orders[i], Ok, 0));
        i := i + 1;
      }
      assert orders[..i] == orders;
    }

    // The orders of one side, as the burst sends them.
    method SendSide(side: Side, ghost before: seq<Order>)
      requires Ready() && (if side.Buy? then BurstShows(Subscriber(), [], before) else BurstShows(Subscriber(), before, []))
      modifies this`feedSeq, this`sent
      ensures Ready() && sent == old(sent) + BurstFor(old(feedSeq) + 1, side, ListOf(mirror.view, side))
      ensures var s := ListOf(mirror.view, side);
        if side.Buy? then BurstShows(Subscriber(), s, before) else BurstShows(Subscriber(), before, s)
    {
      hide BurstShows, FoldAll, Numbered, Sane, BookMirror.Valid;
      var s := mirror.Walk(side);
      var i := 0;
      while i < |s|
        invariant 0 <= i <= |s| && Ready() && feedSeq == old(feedSeq) + i
        invariant sent == old(sent) + BurstFor(old(feedSeq) + 1, side, s)[..i]
        invariant if side.Buy? then BurstShows(Subscriber(), s[..i], before) else BurstShows(Subscriber(), before, s[..i])
      {
        assert s[..i + 1] == s[..i] + [s[i]];
        if side.Buy? {
          BurstStep(Subscriber(), s[..i], before, s[i], side, feedSeq + 1);
        } else {
          BurstStep(Subscriber(), before, s[..i], s[i], side, feedSeq + 1);
        }
        Send(L3Order(feedSeq + 1, Rested, s[i].(side := side)));
        i := i + 1;
      }
      assert s[..i] == s;
    }

    method SeedSide(side: Side) returns (t: Totals)
      requires mirror.Valid()
      ensures forall price {:trigger TotalAt(t, price)} :: TotalAt(t, price) == TotalOf(QueueAt(mirror.view, side, price))
    {
      hide AtPrice, SumRemaining, BookMirror.Valid;
      var s := mirror.Walk(side);
      var i := 0;
      t := map[];
      EmptyQueue();
      while i < |s|
        invariant 0 <= i <= |s| && mirror.Valid() && s == ListOf(mirror.view, side)
        invariant forall price {:trigger TotalAt(t, price)} ::
          TotalAt(t, price) == if AtPrice(s[..i], price) == [] then None else TotalOf(QueueAt(mirror.view, side, price))
      {
        assert s[..i + 1] == s[..i] + [s[i]];
        var total := mirror.LevelTotal(side, s[i].price);
        ghost var was := t;
        t := t[s[i].price := total];
        forall price ensures TotalAt(t, price) == if AtPrice(s[..i + 1], price) == [] then None else TotalOf(QueueAt(mirror.view, side, price)) {
          AtConcat(s[..i], [s[i]], price);
          AtOne(s[i], price);
          AtEvery(s, i);
          assert TotalAt(was, price) == if AtPrice(s[..i], price) == [] then None else TotalOf(QueueAt(mirror.view, side, price));
        }
        i := i + 1;
      }
      assert s[..i] == s;
    }

    // The burst proper: start, every resting order, end.
    method SendBurst()
      requires Ready()
      modifies this`feedSeq, this`sent
      ensures Ready() && Shows(Subscriber(), mirror.view)
      ensures var n, m := old(feedSeq) + 1, mirror.view;
        sent == old(sent) + [SnapshotStart(n, |m.index|)] + BurstFor(n + 1, Buy, m.bids)
                + BurstFor(n + 1 + |m.bids|, Sell, m.asks) + [SnapshotEnd(n + 1 + |m.bids| + |m.asks|)]
    {
      hide Sane, FoldAll, BurstShows, Numbered, BurstFor, Shows;
      Send(SnapshotStart(feedSeq + 1, |mirror.index|));
      BurstStarts(Subscriber());
      SendSide(Buy, []);
      SendSide(Sell, mirror.view.bids);
      ghost var d := Subscriber();
      Send(SnapshotEnd(feedSeq + 1));
      BurstEnds(d, mirror.view, feedSeq);
    }

    /** A lapped publisher starts over: whatever the snapshot source loads, a subscriber that sees the burst shows
        exactly that, no matter what it showed before. */
    method Resync(orders: seq<Order>, counters: Option<(int, int)>)
      requires Ready() && Positive(orders)
      modifies mirror, this`bidTotals, this`askTotals, this`feedSeq, this`sent
      ensures Valid()
      ensures var n, m := old(feedSeq) + 1, mirror.view;
        sent == old(sent) + [SnapshotStart(n, |m.index|)] + BurstFor(n + 1, Buy, m.bids)
                + BurstFor(n + 1 + |m.bids|, Sell, m.asks) + [SnapshotEnd(n + 1 + |m.bids| + |m.asks|)]
      ensures mirror.view ==
        match counters
        case None => LoadedMirror(orders)
        case Some(c) => LoadedMirror(orders).(lastSeq := c.0, tradeCount := c.1)
    {
      hide AtPrice, SumRemaining, Numbered, FoldAll, BookMirror.Valid, LoadedMirror, BurstFor, Shows, Sane;
      Load(orders);
      if counters.Some? {
        mirror.SetCounters(counters.value.0, counters.value.1);
        SaneCounters(LoadedMirror(orders), mirror.view);
      }
      SendBurst();
      bidTotals := SeedSide(Buy);
      askTotals := SeedSide(Sell);
    }

    // What the tracked total says about the level before, and what the new total says about it now.
    lemma LevelFacts(m: Mirror, side: Side, price: int)
      requires TotalsMatch(bidTotals, askTotals, m) && Shows(Subscriber(), m) && Sane(m) && Sane(mirror.view)
      ensures var q, q' := QueueAt(m, side, price), QueueAt(mirror.view, side, price);
        var totals := if side.Buy? then bidTotals else askTotals;
        && (if price in totals then totals[price] else 0) == SumRemaining(q)
        && (SumRemaining(q') == 0 <==> q' == []) && (SumRemaining(q) == 0 <==> q == [])
        && TotalOf(q) == TotalAt(totals, price) && !Subscriber().inBurst
    {
      hide AtPrice, SumRemaining, FoldAll;
      AtPositive(ListOf(m, side), price);
      AtPositive(ListOf(mirror.view, side), price);
      SumPositive(QueueAt(m, side, price));
      SumPositive(QueueAt(mirror.view, side, price));
      assert TotalAt(bidTotals, price) == TotalOf(QueueAt(m, Buy, price));
      assert TotalAt(askTotals, price) == TotalOf(QueueAt(m, Sell, price));
      EmptySum();
    }
  }

  // Everything a run of rest events leaves in an empty mirror.
  function LoadedMirror(orders: seq<Order>): Mirror {
    if orders == [] then Cleared
    else Apply(LoadedMirror(orders[..|orders| - 1]), OrderUpdate(Rested, orders[|orders| - 1], Ok, 0))
  }

  // During a burst the ladder adds up the orders sent so far, side by side.
  ghost predicate BurstShows(d: Depth, bids: seq<Order>, asks: seq<Order>) {
    && d.inBurst
    && (forall price {:trigger RungAt(d, Buy, price)} :: RungAt(d, Buy, price) == AggOf(AtPrice(bids, price)))
    && (forall price {:trigger RungAt(d, Sell, price)} :: RungAt(d, Sell, price) == AggOf(AtPrice(asks, price)))
  }

  lemma BurstStep(d: Depth, bids: seq<Order>, asks: seq<Order>, x: Order, side: Side, n: int)
    requires BurstShows(d, bids, asks)
    ensures var d' := Fold(d, L3Order(n, Rested, x.(side := side)));
      if side.Buy? then BurstShows(d', bids + [x], asks) else BurstShows(d', bids, asks + [x])
  {
    hide AtPrice, SumRemaining;
    var d' := Fold(d, L3Order(n, Rested, x.(side := side)));
    forall price ensures side.Buy? ==> RungAt(d', Buy, price) == AggOf(AtPrice(bids + [x], price)) {
      assert RungAt(d, Buy, price) == AggOf(AtPrice(bids, price));
      AggSnoc(bids, x, price);
    }
    forall price ensures side.Sell? ==> RungAt(d', Sell, price) == AggOf(AtPrice(asks + [x], price)) {
      assert RungAt(d, Sell, price) == AggOf(AtPrice(asks, price));
      AggSnoc(asks, x, price);
    }
    assert side.Buy? ==> forall price {:trigger RungAt(d', Sell, price)} :: RungAt(d', Sell, price) == RungAt(d, Sell, price);
    assert side.Sell? ==> forall price {:trigger RungAt(d', Buy, price)} :: RungAt(d', Buy, price) == RungAt(d, Buy, price);
  }

  // What one more order does to the aggregate of a level.
  lemma AggSnoc(s: seq<Order>, x: Order, price: int)
    ensures AggOf(AtPrice(s + [x], price)) ==
      if price != x.price then AggOf(AtPrice(s, price))
      else
        var was := if AggOf(AtPrice(s, price)).None? then LevelAgg(0, 0) else AggOf(AtPrice(s, price)).value;
        Some(LevelAgg(was.qty + x.remaining, was.orders + 1))
  {
    AtConcat(s, [x], price);
    AtOne(x, price);
    SumSnoc(AtPrice(s, price), x);
    EmptySum();
    assert AtPrice(s, price) + [] == AtPrice(s, price);
  }

  lemma EmptyQueue()
    ensures forall price :: AtPrice([], price) == []
  {
  }

  lemma BurstStarts(d: Depth)
    requires d == Depth(map[], map[], true)
    ensures BurstShows(d, [], [])
  {
  }

  lemma BurstEnds(d: Depth, m: Mirror, n: int)
    requires BurstShows(d, m.bids, m.asks)
    ensures Shows(Fold(d, SnapshotEnd(n)), m)
  {
    hide AtPrice, SumRemaining, AggOf;
    var d' := Fold(d, SnapshotEnd(n));
    forall side, price ensures RungAt(d', side, price) == AggOf(QueueAt(m, side, price)) {
      assert RungAt(d', side, price) == RungAt(d, side, price);
      assert side.Buy? || side.Sell?;
    }
  }

  // Events about no resting order leave both lists alone.
  lemma Unaffected(m: Mirror, e: Event)
    ensures e.StatusEvent? ==> Apply(m, e) == m
    ensures e.OrderUpdate? && e.action.NotRested? ==> Apply(m, e).bids == m.bids && Apply(m, e).asks == m.asks
  {
  }

  lemma NotBurst(d: Depth, m: Mirror)
    requires Shows(d, m)
    ensures !d.inBurst
  {
  }

  lemma SameDepth(bids: Totals, asks: Totals, d: Depth, m: Mirror, m': Mirror)
    requires TotalsMatch(bids, asks, m) && Shows(d, m) && m'.bids == m.bids && m'.asks == m.asks
    ensures TotalsMatch(bids, asks, m') && Shows(d, m')
  {
    hide AtPrice, SumRemaining;
    forall side, price ensures QueueAt(m', side, price) == QueueAt(m, side, price) {
    }
  }

  lemma EmptySum()
    ensures SumRemaining([]) == 0
  {
  }

  lemma Unmoved(bids: Totals, asks: Totals, d: Depth, m: Mirror, m': Mirror, at: Location)
    requires TotalsMatch(bids, asks, m) && Shows(d, m) && Moves(m, m', at)
    requires SumRemaining(QueueAt(m', at.side, at.price)) == SumRemaining(QueueAt(m, at.side, at.price))
    ensures TotalsMatch(bids, asks, m') && Shows(d, m')
  {
    hide AtPrice, QueueAt, SumRemaining, TotalOf, AggOf, RungAt, TotalAt;
    forall side, price ensures QueueAt(m', side, price) == QueueAt(m, side, price) {
      assert Location(side, price) != at || (side == at.side && price == at.price);
    }
  }
}
