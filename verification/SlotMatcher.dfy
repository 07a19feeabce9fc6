/** The matcher as the level arrays run it, whatever the prices: orders queue by slot, that is by their price rounded
    down to the grid, and one tracked price per side stands for its best level. On the grid this is the price-time
    matcher. */
module SlotMatcher {
  import opened Types
  import opened Matcher
  import opened BookLaws
  import opened Grid

  // The queues in slot order, the counters, and the two tracked best prices.
  datatype SlotBook = SlotBook(book: Book, bestBid: int, bestAsk: int)

  datatype SlotEffect = SlotEffect(state: SlotBook, result: OrderResult, trades: seq<Trade>, victims: seq<Order>)

  datatype SlotReplaceEffect = SlotReplaceEffect(effect: SlotEffect, cancelled: bool, removed: OrderResult)

  // What matching leaves, and the tracked best price of the side it matched against.
  datatype SlotResult = SlotResult(m: MatchResult, best: int)

  const EmptySlots := SlotBook(EmptyBook, BID_EMPTY, ASK_EMPTY)

  function BestOf(b: SlotBook, s: Side): int {
    if s.Buy? then b.bestBid else b.bestAsk
  }

  function WithBest(b: SlotBook, s: Side, best: int): SlotBook {
    if s.Buy? then b.(bestBid := best) else b.(bestAsk := best)
  }

  // ---------------------------------------------------------------------------------------------
  // The tracked best price
  // ---------------------------------------------------------------------------------------------

  // The grid price of the first slot in use: what looking for the next occupied level yields.
  function Advance(cfg: Config, side: Side, orders: seq<Order>): int
    requires cfg.tick > 0
  {
    if orders == [] then EmptySentinel(side) else PriceAt(cfg, IndexOf(cfg, orders[0].price))
  }

  // The first order waits in the slot the tracked price names.
  predicate Here(cfg: Config, orders: seq<Order>, best: int)
    requires cfg.tick > 0
  {
    orders != [] && IndexOf(cfg, orders[0].price) == IndexOf(cfg, best)
  }

  function BestAfter(cfg: Config, side: Side, orders: seq<Order>, best: int): int
    requires cfg.tick > 0
  {
    if Here(cfg, orders, best) then best else Advance(cfg, side, orders)
  }

  // Some order waits in slot `i`.
  predicate Occupied(cfg: Config, orders: seq<Order>, i: int)
    requires cfg.tick > 0
  {
    exists k :: 0 <= k < |orders| && IndexOf(cfg, orders[k].price) == i
  }

  // After the order at `price` left: its level is looked at again only if it emptied, and the tracked price only if
  // it is that very price.
  function CancelledBest(cfg: Config, side: Side, orders: seq<Order>, best: int, price: int): int
    requires cfg.tick > 0
  {
    if !Occupied(cfg, orders, IndexOf(cfg, price)) && price == best then Advance(cfg, side, orders) else best
  }

  // ---------------------------------------------------------------------------------------------
  // Matching
  // ---------------------------------------------------------------------------------------------

  // Behind every order whose slot is equal or better.
  function SlotInsert(cfg: Config, s: seq<Order>, x: Order): seq<Order>
    requires cfg.tick > 0
  {
    if s == [] then [x]
    else if Better(x.side, IndexOf(cfg, x.price), IndexOf(cfg, s[0].price)) then [x] + s
    else [s[0]] + SlotInsert(cfg, s[1..], x)
  }

  lemma {:induction false} SlotInsertLength(cfg: Config, s: seq<Order>, x: Order)
    requires cfg.tick > 0
    ensures |SlotInsert(cfg, s, x)| == |s| + 1
  {
    if s != [] {
      SlotInsertLength(cfg, s[1..], x);
    }
  }

  // The tracked price names a slot that has no orders.
  function Stale(cfg: Config, side: Side, opp: seq<Order>, best: int): nat
    requires cfg.tick > 0
  {
    if best == EmptySentinel(side) || Here(cfg, opp, best) then 0 else 1
  }

  lemma AdvanceFresh(cfg: Config, side: Side, opp: seq<Order>)
    requires cfg.tick > 0
    ensures Stale(cfg, side, opp, Advance(cfg, side, opp)) == 0
  {
    if opp != [] {
      IndexOfPrice(cfg, IndexOf(cfg, opp[0].price));
    }
  }

  // Level after level while the tracked price crosses; within a level, order after order, whatever their prices.
  function SlotMatch(cfg: Config, o: NewOrder, opp: seq<Order>, best: int, remaining: int, tradeId: int): SlotResult
    requires cfg.tick > 0
    decreases |opp|, Stale(cfg, Opposite(o.side), opp, best)
  {
    var side := Opposite(o.side);
    if remaining <= 0 || best == EmptySentinel(side) then SlotResult(MatchResult(opp, remaining, [], [], Exhausted), best)
    else if !Crosses(o, best) then SlotResult(MatchResult(opp, remaining, [], [], NoLongerCrosses), best)
    else if !Here(cfg, opp, best) then
      AdvanceFresh(cfg, side, opp);
      SlotMatch(cfg, o, opp, Advance(cfg, side, opp), remaining, tradeId)
    else
      var top, best' := opp[0], BestAfter(cfg, side, opp[1..], best);
      if top.participant == o.participant then
        match cfg.stp
        case CancelPassive => SlotEmit([], [top], SlotMatch(cfg, o, opp[1..], best', remaining, tradeId))
        case CancelBoth => SlotResult(MatchResult(opp[1..], remaining, [], [top], StpFired), best')
        case CancelAggressor => SlotResult(MatchResult(opp, remaining, [], [], StpFired), best)
      else
        var q := Min(remaining, top.remaining);
        var t := TradeFor(o, top, q, tradeId);
        if top.remaining == q then SlotEmit([t], [], SlotMatch(cfg, o, opp[1..], best', remaining - q, tradeId + 1))
        else SlotResult(MatchResult([top.(remaining := top.remaining - q)] + opp[1..], remaining - q, [t], [], Exhausted), best)
  }

  function SlotEmit(trades: seq<Trade>, victims: seq<Order>, r: SlotResult): SlotResult {
    r.(m := Emit(trades, victims, r.m))
  }

  // The fill-or-kill pre-scan, level by level in the same way.
  function SlotAvailable(cfg: Config, o: NewOrder, opp: seq<Order>, best: int, sum: int): int
    requires cfg.tick > 0
    decreases |opp|, Stale(cfg, Opposite(o.side), opp, best)
  {
    var side := Opposite(o.side);
    if best == EmptySentinel(side) || !Crosses(o, best) then sum
    else if !Here(cfg, opp, best) then
      AdvanceFresh(cfg, side, opp);
      SlotAvailable(cfg, o, opp, Advance(cfg, side, opp), sum)
    else
      var best' := BestAfter(cfg, side, opp[1..], best);
      if opp[0].participant == o.participant then
        if cfg.stp.CancelPassive? then SlotAvailable(cfg, o, opp[1..], best', sum) else sum
      else
        var sum' := sum + opp[0].remaining;
        if sum' >= o.quantity then sum' else SlotAvailable(cfg, o, opp[1..], best', sum')
  }

  // ---------------------------------------------------------------------------------------------
  // The commands
  // ---------------------------------------------------------------------------------------------

  function SlotRefusal(cfg: Config, b: SlotBook, o: NewOrder): SubmitStatus
    requires cfg.tick > 0
  {
    var side := Opposite(o.side);
    if o.quantity <= 0 then RejectedInvalidQuantity
    else if !o.kind.Market? && !InRange(cfg, o.price) then RejectedPriceOutOfRange
    else if IsResting(b.book, o.id) then RejectedDuplicateId
    else if o.kind.Market? && BestOf(b, side) == EmptySentinel(side) then RejectedMarketIntoEmptyBook
    else if o.kind.Fok? && SlotAvailable(cfg, o, SideOf(b.book, side), BestOf(b, side), 0) < o.quantity then RejectedFokUnfillable
    else Ok
  }

  function BetterOf(x: Order, best: int): int {
    if Better(x.side, x.price, best) then x.price else best
  }

  // `addOrder`
  function SlotAdd(cfg: Config, b: SlotBook, x: Order): SlotBook
    requires cfg.tick > 0
  {
    var b' := b.(book := WithSide(b.book, x.side, SlotInsert(cfg, SideOf(b.book, x.side), x)));
    WithBest(b', x.side, BetterOf(x, BestOf(b, x.side)))
  }

  function SlotSubmit(cfg: Config, b: SlotBook, o: NewOrder): SlotEffect
    requires cfg.tick > 0
  {
    var refusal := SlotRefusal(cfg, b, o);
    if !refusal.Ok? then SlotEffect(b, Rejected(o, refusal), [], [])
    else
      var arrival, side := b.book.lastArrival + 1, Opposite(o.side);
      var r := SlotMatch(cfg, o, SideOf(b.book, side), BestOf(b, side), o.quantity, b.book.nextTradeId);
      var book' := WithSide(b.book, side, r.m.rest)
        .(lastArrival := arrival, nextTradeId := b.book.nextTradeId + |r.m.trades|);
      var b' := WithBest(b.(book := book'), side, r.best);
      var (status, rested) := Disposition(o, r.m, Resting(book') < cfg.maxOrders);
      var result := OrderResult(status, o.quantity - r.m.remaining, r.m.remaining, rested,
                                o.price, o.quantity, o.participant, arrival, o.side);
      SlotEffect(if rested then SlotAdd(cfg, b', Residual(o, r.m.remaining, arrival)) else b', result, r.m.trades, r.m.victims)
  }

  function SlotCancel(cfg: Config, b: SlotBook, id: int): SlotEffect
    requires cfg.tick > 0
  {
    if !IsResting(b.book, id) then SlotEffect(b, UnknownOrder, [], [])
    else
      var x := RestingOrder(b.book, id);
      var b' := b.(book := RemoveResting(b.book, id));
      SlotEffect(WithBest(b', x.side, CancelledBest(cfg, x.side, SideOf(b'.book, x.side), BestOf(b, x.side), x.price)),
                 CancelledResult(x), [], [])
  }

  function SlotReplace(cfg: Config, b: SlotBook, oldId: int, amended: NewOrder): SlotReplaceEffect
    requires cfg.tick > 0
  {
    var refusal := ReplaceRefusal(cfg, b.book, oldId, amended);
    if !refusal.Ok? then SlotReplaceEffect(SlotEffect(b, RejectedReplace(refusal), [], []), false, RejectedReplace(Ok))
    else
      var c := SlotCancel(cfg, b, oldId);
      SlotReplaceEffect(SlotSubmit(cfg, c.state, amended), true, c.result)
  }

  function SlotStep(cfg: Config, b: SlotBook, c: Command): SlotEffect
    requires cfg.tick > 0
  {
    match c
    case New(o) => SlotSubmit(cfg, b, o)
    case Cancel(id) => SlotCancel(cfg, b, id)
    case Replace(oldId, amended) => SlotReplace(cfg, b, oldId, amended).effect
  }

  function SlotRun(cfg: Config, b: SlotBook, cs: seq<Command>): SlotBook
    requires cfg.tick > 0
  {
    if cs == [] then b else SlotStep(cfg, SlotRun(cfg, b, cs[..|cs| - 1]), cs[|cs| - 1]).state
  }

  // ---------------------------------------------------------------------------------------------
  // Ids
  // ---------------------------------------------------------------------------------------------

  lemma {:induction false} SlotRestIds(cfg: Config, o: NewOrder, opp: seq<Order>, best: int, remaining: int, tradeId: int, id: int)
    requires cfg.tick > 0 && Find(opp, id) == -1
    ensures Find(SlotMatch(cfg, o, opp, best, remaining, tradeId).m.rest, id) == -1
    decreases |opp|, Stale(cfg, Opposite(o.side), opp, best)
  {
    hide BestAfter, Here, Advance, IndexOf;
    var side := Opposite(o.side);
    if remaining > 0 && best != EmptySentinel(side) && Crosses(o, best) {
      if !Here(cfg, opp, best) {
        AdvanceFresh(cfg, side, opp);
        SlotRestIds(cfg, o, opp, Advance(cfg, side, opp), remaining, tradeId, id);
      } else {
        HereSome(cfg, opp, best);
        var best' := BestAfter(cfg, side, opp[1..], best);
        SlotRestIds(cfg, o, opp[1..], best', remaining, tradeId, id);
        SlotRestIds(cfg, o, opp[1..], best', remaining - Min(remaining, opp[0].remaining), tradeId + 1, id);
        var shrunk := opp[0].(remaining := opp[0].remaining - Min(remaining, opp[0].remaining));
        assert ([shrunk] + opp[1..])[1..] == opp[1..];
      }
    }
  }

  lemma HereSome(cfg: Config, opp: seq<Order>, best: int)
    requires cfg.tick > 0 && Here(cfg, opp, best)
    ensures opp != []
  {
  }

  // An id that is not resting is still not resting once matching is over.
  lemma SlotStillFresh(cfg: Config, b: SlotBook, o: NewOrder)
    requires cfg.tick > 0 && SlotRefusal(cfg, b, o).Ok?
    ensures var side := Opposite(o.side);
      var r := SlotMatch(cfg, o, SideOf(b.book, side), BestOf(b, side), o.quantity, b.book.nextTradeId);
      && !IsResting(WithSide(b.book, side, r.m.rest), o.id)
      && (o.kind.Limit? ==> InRange(cfg, o.price))
  {
    hide SlotMatch, SlotAvailable, Find;
    var side := Opposite(o.side);
    SlotRestIds(cfg, o, SideOf(b.book, side), BestOf(b, side), o.quantity, b.book.nextTradeId, o.id);
  }

  // A resting id is on one list only, so taking it out changes one list only.
  lemma RemoveOne(b: Book, side: Side, id: int)
    requires DisjointIds(b.bids, b.asks) && Find(SideOf(b, side), id) != -1
    ensures var s := SideOf(b, side);
      && IsResting(b, id) && RestingOrder(b, id) == s[Find(s, id)]
      && RemoveResting(b, id) == WithSide(b, side, Remove(s, id)) && |Remove(s, id)| == |s| - 1
  {
    hide Find;
  }

  // ---------------------------------------------------------------------------------------------
  // The true best prices
  // ---------------------------------------------------------------------------------------------

  function TrueBest(side: Side, s: seq<Order>): int {
    if s == [] then EmptySentinel(side) else s[0].price
  }

  // The book with the prices of its first orders tracked.
  function OfBook(b: Book): SlotBook {
    SlotBook(b, TrueBest(Buy, b.bids), TrueBest(Sell, b.asks))
  }

  lemma OfBookBook(b: Book)
    ensures OfBook(b).book == b
  {
  }

  lemma NothingTracked()
    ensures OfBook(EmptyBook) == EmptySlots
  {
  }
}
