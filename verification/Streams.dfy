/** Every event the matching thread publishes is one the publisher can rely on. */
module Streams {
  import opened Types
  import opened Matcher
  import opened MatcherLaws
  import opened BookLaws
  import opened Verdicts
  import opened Events
  import opened Capacity
  import opened Mirrors
  import opened BookMirrors
  import opened Ladders

  // Each event is well formed for the mirror that has seen the ones before it.
  ghost predicate AllWellFormed(m: Mirror, es: seq<Event>)
    decreases |es|
  {
    es == [] || (WellFormed(m, es[0]) && AllWellFormed(Apply(m, es[0]), es[1..]))
  }

  lemma {:induction false} WellFormedSplit(m: Mirror, a: seq<Event>, b: seq<Event>)
    requires AllWellFormed(m, a) && AllWellFormed(ApplyAll(m, a), b)
    ensures AllWellFormed(m, a + b)
    decreases |a|
  {
    if a == [] {
      assert a + b == b;
    } else {
      WellFormedSplit(Apply(m, a[0]), a[1..], b);
      assert (a + b)[1..] == a[1..] + b;
    }
  }

  // ---------------------------------------------------------------------------------------------
  // Trades and victims name orders at the prices those orders have
  // ---------------------------------------------------------------------------------------------

  ghost predicate TradeFits(o: NewOrder, opp: seq<Order>, t: Trade) {
    t.quantity > 0 && t.aggressorSide == o.side && PriceOf(opp, t.passiveId) == Some(t.price)
  }

  lemma PriceInTail(s: seq<Order>, id: int)
    requires s != [] && DistinctIds(s) && PriceOf(s[1..], id).Some?
    ensures PriceOf(s, id) == PriceOf(s[1..], id)
  {
    var k := Find(s[1..], id);
    assert s[k + 1].id == id;
  }

  lemma {:induction false} TradesFit(stp: StpPolicy, o: NewOrder, opp: seq<Order>, remaining: int, tradeId: int, m: MatchResult)
    requires DistinctIds(opp) && Positive(opp) && m == Match(stp, o, opp, remaining, tradeId)
    ensures forall i :: 0 <= i < |m.trades| ==> TradeFits(o, opp, m.trades[i])
    decreases |opp|
  {
    hide Find;
    if remaining > 0 && opp != [] && Crosses(o, opp[0].price) {
      FindIs(opp, opp[0].id, 0);
      match TakeTurn(stp, o, opp, remaining, tradeId)
      case Stop(_) =>
      case Gone(trades, victims, remaining') =>
        var n := Match(stp, o, opp[1..], remaining', tradeId + |trades|);
        TradesFit(stp, o, opp[1..], remaining', tradeId + |trades|, n);
        forall i | 0 <= i < |n.trades| ensures TradeFits(o, opp, n.trades[i]) {
          PriceInTail(opp, n.trades[i].passiveId);
        }
    }
  }

  // Prices disappear but do not change.
  ghost predicate Fades(s: seq<Order>, s': seq<Order>) {
    forall id {:trigger PriceOf(s', id)} :: PriceOf(s', id).None? || PriceOf(s', id) == PriceOf(s, id)
  }

  lemma FadesFill(s: seq<Order>, s': seq<Order>, id: int, quantity: int)
    requires DistinctIds(s') && Fades(s, s')
    ensures Fades(s, FilledList(s', id, quantity))
  {
    hide Find, PriceOf;
    forall other ensures var p := PriceOf(FilledList(s', id, quantity), other); p.None? || p == PriceOf(s, other) {
      assert PriceOf(s', other).None? || PriceOf(s', other) == PriceOf(s, other);
      var k := Find(s', id);
      if k != -1 {
        PriceAfterRemove(s', id, other);
        PriceAfterFill(s', k, quantity, other);
      }
    }
  }

  lemma FadesRemove(s: seq<Order>, s': seq<Order>, id: int)
    requires DistinctIds(s') && Fades(s, s')
    ensures Fades(s, Remove(s', id))
  {
    hide Find, PriceOf;
    forall other ensures var p := PriceOf(Remove(s', id), other); p.None? || p == PriceOf(s, other) {
      assert PriceOf(s', other).None? || PriceOf(s', other) == PriceOf(s, other);
      PriceAfterRemove(s', id, other);
    }
  }

  // An id of the opposite side is where its price says, or already gone.
  lemma PlacedThere(m: Mirror, b: Book, side: Side, id: int, price: int)
    requires Tracks(m, b) && Absent(SideOf(b, Opposite(side)), id)
    requires PriceOf(SideOf(b, side), id).None? || PriceOf(SideOf(b, side), id) == Some(price)
    ensures PlacedAt(m, id, side, price)
  {
    hide Find, Indexes, DistinctIds, DisjointIds;
    Located(m, b, id);
  }

  lemma {:induction false} TradesWellFormed(o: NewOrder, m: Mirror, b: Book, opp: seq<Order>, ts: seq<Trade>, n: int)
    requires Tracks(m, b) && FillsNone(ts, SideOf(b, o.side)) && Fades(opp, SideOf(b, Opposite(o.side)))
    requires forall i :: 0 <= i < |ts| ==> TradeFits(o, opp, ts[i])
    ensures AllWellFormed(m, TradeEvents(ts, n))
    ensures Fades(opp, FilledAll(SideOf(b, Opposite(o.side)), ts))
    decreases |ts|
  {
    hide Tracks, Absent, FilledList, Apply, Fades, PriceOf;
    var es, side := TradeEvents(ts, n), Opposite(o.side);
    if ts != [] {
      var s := SideOf(b, side);
      FadesAt(opp, s, ts[0].passiveId);
      PlacedThere(m, b, side, ts[0].passiveId, ts[0].price);
      TradeTracks(m, b, side, ts[0], n);
      TracksDistinct(m, b, side);
      FadesFill(opp, s, ts[0].passiveId, ts[0].quantity);
      assert es[1..] == TradeEvents(ts[1..], n);
      TradesWellFormed(o, Apply(m, es[0]), WithSide(b, side, FilledList(s, ts[0].passiveId, ts[0].quantity)), opp, ts[1..], n);
    }
  }

  lemma FadesAt(s: seq<Order>, s': seq<Order>, id: int)
    requires Fades(s, s')
    ensures PriceOf(s', id).None? || PriceOf(s', id) == PriceOf(s, id)
  {
  }

  lemma TracksDistinct(m: Mirror, b: Book, side: Side)
    requires Tracks(m, b)
    ensures DistinctIds(SideOf(b, side))
  {
  }

  lemma {:induction false} VictimsWellFormed(m: Mirror, b: Book, side: Side, opp: seq<Order>, vs: seq<Order>, n: int)
    requires Tracks(m, b) && RemovesNone(vs, SideOf(b, Opposite(side)), m.lastSeq) && Fades(opp, SideOf(b, side))
    requires forall i :: 0 <= i < |vs| ==> vs[i].side == side && PriceOf(opp, vs[i].id) == Some(vs[i].price)
    ensures AllWellFormed(m, VictimEvents(vs, n))
    decreases |vs|
  {
    hide Tracks, Absent, Remove, Apply, Fades, PriceOf;
    var es := VictimEvents(vs, n);
    if vs != [] {
      var s := SideOf(b, side);
      FadesAt(opp, s, vs[0].id);
      PlacedThere(m, b, side, vs[0].id, vs[0].price);
      VictimTracks(m, b, side, vs[0], n);
      TracksDistinct(m, b, side);
      FadesRemove(opp, s, vs[0].id);
      assert es[1..] == VictimEvents(vs[1..], n);
      VictimsWellFormed(Apply(m, es[0]), WithSide(b, side, Remove(s, vs[0].id)), side, opp, vs[1..], n);
    }
  }

  lemma MatchWellFormed(cfg: Config, m: Mirror, b: Book, o: NewOrder, n: int)
    requires BookInv(cfg, b) && Agrees(m, b)
    ensures var r := Match(cfg.stp, o, SideOf(b, Opposite(o.side)), o.quantity, b.nextTradeId);
            AllWellFormed(m, TradeEvents(r.trades, n) + VictimEvents(r.victims, n))
  {
    hide BookInv, Tracks, Match, FillsNone, RemovesNone, FilledAll, TradeEvents, VictimEvents, Fades, PriceOf, Positive, DistinctIds;
    var side := Opposite(o.side);
    var opp := SideOf(b, side);
    var r := Match(cfg.stp, o, opp, o.quantity, b.nextTradeId);
    InvListed(cfg, b);
    ListedDistinct(b, side);
    MatchNames(cfg, b, o);
    TradesFit(cfg.stp, o, opp, o.quantity, b.nextTradeId, r);
    VictimsFit(cfg, b, o);
    FadesSelf(opp);
    TradesWellFormed(o, m, b, opp, r.trades, n);
    TradesTrack(m, b, side, r.trades, n);
    VictimsWellFormed(ApplyAll(m, TradeEvents(r.trades, n)), WithSide(b, side, FilledAll(opp, r.trades)), side, opp, r.victims, n);
    WellFormedSplit(m, TradeEvents(r.trades, n), VictimEvents(r.victims, n));
  }

  lemma FadesSelf(s: seq<Order>)
    ensures Fades(s, s)
  {
  }

  lemma VictimsFit(cfg: Config, b: Book, o: NewOrder)
    requires BookInv(cfg, b)
    ensures var side := Opposite(o.side);
      var r := Match(cfg.stp, o, SideOf(b, side), o.quantity, b.nextTradeId);
      forall i :: 0 <= i < |r.victims| ==>
        r.victims[i].side == side && PriceOf(SideOf(b, side), r.victims[i].id) == Some(r.victims[i].price)
  {
    hide BookInv, Match, Find;
    var side := Opposite(o.side);
    var opp := SideOf(b, side);
    var r := Match(cfg.stp, o, opp, o.quantity, b.nextTradeId);
    InvListed(cfg, b);
    VictimsAre(cfg.stp, o, opp, o.quantity, b.nextTradeId);
    forall i | 0 <= i < |r.victims| ensures r.victims[i].side == side && PriceOf(opp, r.victims[i].id) == Some(r.victims[i].price) {
      var k :| 0 <= k < |opp| && opp[k] == r.victims[i];
      FindIs(opp, opp[k].id, k);
    }
  }

  // ---------------------------------------------------------------------------------------------
  // Commands
  // ---------------------------------------------------------------------------------------------

  lemma {:induction false} StatusWellFormed(m: Mirror, es: seq<Event>)
    requires forall i :: 0 <= i < |es| ==> es[i].StatusEvent?
    ensures AllWellFormed(m, es)
    decreases |es|
  {
    if es != [] {
      StatusWellFormed(m, es[1..]);
    }
  }

  lemma SubmitWellFormed(cfg: Config, m: Mirror, b: Book, o: NewOrder, n: int, mid: seq<Event>)
    requires BookInv(cfg, b) && Agrees(m, b) && forall i :: 0 <= i < |mid| ==> mid[i].StatusEvent?
    ensures var e := Submit(cfg, b, o);
      AllWellFormed(m, TradeEvents(e.trades, n) + VictimEvents(e.victims, n) + mid + [OutcomeEvent(o.id, e.result, n)])
  {
    hide BookInv, Tracks, Match, Refusal, Insert, Apply, TradeEvents, VictimEvents, ApplyAll;
    var e := Submit(cfg, b, o);
    var tv, last := TradeEvents(e.trades, n) + VictimEvents(e.victims, n), OutcomeEvent(o.id, e.result, n);
    if Refusal(cfg, b, o).Ok? {
      MatchWellFormed(cfg, m, b, o, n);
    } else {
      assert tv == [];
    }
    StatusWellFormed(ApplyAll(m, tv), mid);
    WellFormedSplit(m, tv, mid);
    OneWellFormed(ApplyAll(m, tv + mid), last);
    WellFormedSplit(m, tv + mid, [last]);
  }

  lemma OneWellFormed(m: Mirror, e: Event)
    requires WellFormed(m, e)
    ensures AllWellFormed(m, [e])
  {
  }

  lemma CancelWellFormed(cfg: Config, m: Mirror, b: Book, id: int, n: int)
    requires BookInv(cfg, b) && Agrees(m, b) && IsResting(b, id)
    ensures WellFormed(m, CancelEvent(OrderOf(id, CancelOrder(b, id).result), n))
  {
    hide Find, Indexes, DistinctIds, DisjointIds;
    InvListed(cfg, b);
    Located(m, b, id);
    var k := Find(b.bids, id);
    assert k != -1 ==> SideOf(b, Buy)[k] == RestingOrder(b, id) && RestingOrder(b, id).side == Buy;
    assert k == -1 ==> SideOf(b, Sell)[Find(b.asks, id)] == RestingOrder(b, id) && RestingOrder(b, id).side == Sell;
  }

  /** The stream of a command is well formed from end to end, and so is the stream of every run. */
  lemma EventsWellFormed(cfg: Config, m: Mirror, b: Book, c: Command, n: int, cap: nat)
    requires BookInv(cfg, b) && Agrees(m, b) && Fits(cfg, b, c, cap)
    ensures AllWellFormed(m, EventsOf(cfg, b, c, n, cap))
  {
    hide BookInv, Tracks, Submit, Apply, TradeEvents, VictimEvents, WellFormed, AllWellFormed, RejectedBeforeDispatch;
    match c
    case New(o) =>
      var e := Submit(cfg, b, o);
      SubmitWellFormed(cfg, m, b, o, n, if e.result.status.Ok? then [] else [StatusEvent(o.id, e.result.status, n)]);
    case Cancel(id) =>
      var r := CancelOrder(b, id).result;
      StatusWellFormed(m, [StatusEvent(id, r.status, n)]);
      if IsResting(b, id) {
        CancelWellFormed(cfg, m, b, id, n);
        StatusIgnored(m, [StatusEvent(id, r.status, n)]);
        OneWellFormed(m, CancelEvent(OrderOf(id, r), n));
        WellFormedSplit(m, [StatusEvent(id, r.status, n)], [CancelEvent(OrderOf(id, r), n)]);
      } else {
        assert CancelEvents(id, r, n) == [StatusEvent(id, r.status, n)];
      }
    case Replace(oldId, amended) =>
      ReplaceWellFormed(cfg, m, b, oldId, amended, n, cap);
  }

  lemma ReplaceWellFormed(cfg: Config, m: Mirror, b: Book, oldId: int, amended: NewOrder, n: int, cap: nat)
    requires BookInv(cfg, b) && Agrees(m, b) && Fits(cfg, b, Replace(oldId, amended), cap)
    ensures AllWellFormed(m, ReplaceEvents(oldId, amended, ReplaceOrder(cfg, b, oldId, amended), n, cap))
  {
    hide BookInv, Tracks, Submit, Apply, TradeEvents, VictimEvents, Find, RejectedBeforeDispatch, WellFormed, AllWellFormed;
    var e := ReplaceOrder(cfg, b, oldId, amended);
    var r := e.effect.result;
    ReplaceRejectedIff(cfg, b, oldId, amended);
    var status := [StatusEvent(amended.id, r.status, n)];
    if !e.cancelled {
      StatusWellFormed(m, status);
      assert ReplaceEvents(oldId, amended, e, n, cap) == status;
    } else {
      var c, first := CancelOrder(b, oldId), CancelEvent(OrderOf(oldId, e.removed), n);
      CancelKeeps(cfg, b, oldId);
      CancelReplays(cfg, m, b, oldId, n);
      CancelWellFormed(cfg, m, b, oldId, n);
      OneWellFormed(m, first);
      SubmitWellFormed(cfg, Apply(m, first), c.book, amended, n, status);
      var rest := TradeEvents(e.effect.trades, n) + VictimEvents(e.effect.victims, n) + status + [OutcomeEvent(amended.id, r, n)];
      assert ReplaceEvents(oldId, amended, e, n, cap) == [first] + rest;
      WellFormedSplit(m, [first], rest);
    }
  }

  lemma {:induction false} RunWellFormed(cfg: Config, cs: seq<Command>, n: int, cap: nat)
    requires ValidConfig(cfg) && RunHasRoom(cfg, cs, cap) && forall i :: 0 <= i < |cs| ==> GridCommand(cfg, cs[i])
    ensures AllWellFormed(Cleared, EventsOfRun(cfg, EmptyBook, cs, n, cap))
    decreases |cs|
  {
    hide BookInv, Tracks, Step, EventsOf, ApplyAll, HasRoom;
    if cs != [] {
      var last := |cs| - 1;
      RoomBefore(cfg, cs, cap, last);
      var es, b := EventsOfRun(cfg, EmptyBook, cs[..last], n, cap), Run(cfg, EmptyBook, cs[..last]);
      RunWellFormed(cfg, cs[..last], n, cap);
      MirrorOfRun(cfg, cs[..last], n, cap);
      FitsIff(cfg, b, cs[last], cap);
      EventsWellFormed(cfg, ApplyAll(Cleared, es), b, cs[last], n + last, cap);
      WellFormedSplit(Cleared, es, EventsOf(cfg, b, cs[last], n + last, cap));
    }
  }
}
