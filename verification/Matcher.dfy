/** The price-time matcher on two sequences of resting orders, best price first and earliest arrival
    first within a price. This is the specification the pointer-based book refines. */
module Matcher {
  import opened Types

  datatype Outcome = Exhausted | NoLongerCrosses | StpFired

  // What matching leaves of the opposite side and of the incoming quantity, and what it emitted.
  datatype MatchResult = MatchResult(
    rest: seq<Order>, remaining: int, trades: seq<Trade>, victims: seq<Order>, outcome: Outcome)

  datatype Book = Book(bids: seq<Order>, asks: seq<Order>, lastArrival: int, nextTradeId: int)

  datatype Effect = Effect(book: Book, result: OrderResult, trades: seq<Trade>, victims: seq<Order>)

  datatype ReplaceEffect = ReplaceEffect(effect: Effect, cancelled: bool, removed: OrderResult)

  function Min(a: int, b: int): int {
    if a < b then a else b
  }

  const EmptyBook := Book([], [], 0, 0)

  function SideOf(b: Book, s: Side): seq<Order> {
    if s.Buy? then b.bids else b.asks
  }

  function WithSide(b: Book, s: Side, orders: seq<Order>): Book {
    if s.Buy? then b.(bids := orders) else b.(asks := orders)
  }

  function Resting(b: Book): nat {
    |b.bids| + |b.asks|
  }

  // ---------------------------------------------------------------------------------------------
  // Matching
  // ---------------------------------------------------------------------------------------------

  function TradeFor(o: NewOrder, top: Order, quantity: int, id: int): Trade {
    Trade(id, o.id, top.id, top.price, quantity, o.side)
  }

  function Emit(trades: seq<Trade>, victims: seq<Order>, m: MatchResult): MatchResult {
    m.(trades := trades + m.trades, victims := victims + m.victims)
  }

  // One turn of matching: it stops, or the first opposite order leaves the book and matching goes on.
  datatype Turn =
    | Stop(m: MatchResult)
    | Gone(trades: seq<Trade>, victims: seq<Order>, remaining: int)

  function TakeTurn(stp: StpPolicy, o: NewOrder, opp: seq<Order>, remaining: int, tradeId: int): Turn {
    if remaining <= 0 || opp == [] then Stop(MatchResult(opp, remaining, [], [], Exhausted))
    else
      var top := opp[0];
      if !Crosses(o, top.price) then Stop(MatchResult(opp, remaining, [], [], NoLongerCrosses))
      else if top.participant == o.participant then
        match stp
        case CancelPassive => Gone([], [top], remaining)
        case CancelBoth => Stop(MatchResult(opp[1..], remaining, [], [top], StpFired))
        case CancelAggressor => Stop(MatchResult(opp, remaining, [], [], StpFired))
      else
        var q := Min(remaining, top.remaining);
        var t := TradeFor(o, top, q, tradeId);
        if top.remaining == q then Gone([t], [], remaining - q)
        else Stop(MatchResult([top.(remaining := top.remaining - q)] + opp[1..], remaining - q, [t], [], Exhausted))
  }

  function Match(stp: StpPolicy, o: NewOrder, opp: seq<Order>, remaining: int, tradeId: int): MatchResult
    decreases |opp|
  {
    match TakeTurn(stp, o, opp, remaining, tradeId)
    case Stop(m) => m
    case Gone(trades, victims, remaining') =>
      Emit(trades, victims, Match(stp, o, opp[1..], remaining', tradeId + |trades|))
  }

  // The quantity a fill-or-kill order could take, found without touching the book.
  function Available(stp: StpPolicy, o: NewOrder, opp: seq<Order>, sum: int): int
    decreases |opp|
  {
    if opp == [] || !Crosses(o, opp[0].price) then sum
    else if opp[0].participant == o.participant then
      if stp.CancelPassive? then Available(stp, o, opp[1..], sum) else sum
    else
      var sum' := sum + opp[0].remaining;
      if sum' >= o.quantity then sum' else Available(stp, o, opp[1..], sum')
  }

  // ---------------------------------------------------------------------------------------------
  // Resting, finding and removing
  // ---------------------------------------------------------------------------------------------

  // Behind every order at an equal or better price.
  function Insert(s: seq<Order>, o: Order): seq<Order> {
    if s == [] then [o]
    else if Better(o.side, o.price, s[0].price) then [o] + s
    else [s[0]] + Insert(s[1..], o)
  }

  // Position of an id, or -1.
  function Find(s: seq<Order>, id: int): (k: int)
    ensures -1 <= k < |s|
    ensures k >= 0 ==> s[k].id == id
    ensures k == -1 ==> forall i :: 0 <= i < |s| ==> s[i].id != id
  {
    if s == [] then -1
    else if s[0].id == id then 0
    else
      var k := Find(s[1..], id);
      assert forall i :: 1 <= i < |s| ==> s[i] == s[1..][i - 1];
      if k == -1 then -1 else k + 1
  }

  function Remove(s: seq<Order>, id: int): seq<Order> {
    var k := Find(s, id);
    if k == -1 then s else s[..k] + s[k + 1..]
  }

  predicate IsResting(b: Book, id: int) {
    Find(b.bids, id) != -1 || Find(b.asks, id) != -1
  }

  function RestingOrder(b: Book, id: int): Order
    requires IsResting(b, id)
  {
    var k := Find(b.bids, id);
    if k != -1 then b.bids[k] else b.asks[Find(b.asks, id)]
  }

  function RemoveResting(b: Book, id: int): Book {
    b.(bids := Remove(b.bids, id), asks := Remove(b.asks, id))
  }

  // ---------------------------------------------------------------------------------------------
  // The commands
  // ---------------------------------------------------------------------------------------------

  function Rejected(o: NewOrder, status: SubmitStatus): OrderResult {
    OrderResult(status, 0, 0, false, o.price, o.quantity, o.participant, 0, o.side)
  }

  // The status of a submission turned away before it is given an arrival number; Ok means accepted.
  function Refusal(cfg: Config, b: Book, o: NewOrder): SubmitStatus {
    var opp := SideOf(b, Opposite(o.side));
    if o.quantity <= 0 then RejectedInvalidQuantity
    else if !o.kind.Market? && !InRange(cfg, o.price) then RejectedPriceOutOfRange
    else if IsResting(b, o.id) then RejectedDuplicateId
    else if o.kind.Market? && opp == [] then RejectedMarketIntoEmptyBook
    else if o.kind.Fok? && Available(cfg.stp, o, opp, 0) < o.quantity then RejectedFokUnfillable
    else Ok
  }

  // What becomes of the quantity matching could not fill.
  function Disposition(o: NewOrder, m: MatchResult, room: bool): (SubmitStatus, bool) {
    if m.outcome.StpFired? then (CancelledBySelfTradePrevention, false)
    else if m.remaining <= 0 then (Ok, false)
    else
      match o.kind
      case Limit => if room then (Ok, true) else (RejectedPoolExhausted, false)
      case Market => (CancelledResidual, false)
      case Ioc => (CancelledResidual, false)
      case Fok => (RejectedFokUnfillable, false)
  }

  function Residual(o: NewOrder, remaining: int, arrival: int): Order {
    Order(o.id, o.price, o.quantity, remaining, o.participant, arrival, o.side)
  }

  function Submit(cfg: Config, b: Book, o: NewOrder): Effect {
    var refusal := Refusal(cfg, b, o);
    if !refusal.Ok? then Effect(b, Rejected(o, refusal), [], [])
    else
      var arrival := b.lastArrival + 1;
      var m := Match(cfg.stp, o, SideOf(b, Opposite(o.side)), o.quantity, b.nextTradeId);
      var b' := WithSide(b, Opposite(o.side), m.rest)
        .(lastArrival := arrival, nextTradeId := b.nextTradeId + |m.trades|);
      var (status, rested) := Disposition(o, m, Resting(b') < cfg.maxOrders);
      var result := OrderResult(status, o.quantity - m.remaining, m.remaining, rested,
                                o.price, o.quantity, o.participant, arrival, o.side);
      var b'' := if rested then WithSide(b', o.side, Insert(SideOf(b', o.side), Residual(o, m.remaining, arrival)))
                 else b';
      Effect(b'', result, m.trades, m.victims)
  }

  const UnknownOrder := OrderResult(RejectedUnknownOrder, 0, 0, false, 0, 0, 0, 0, Buy)

  function CancelledResult(r: Order): OrderResult {
    OrderResult(Ok, r.quantity - r.remaining, r.remaining, false, r.price, r.quantity, r.participant, r.arrival, r.side)
  }

  function CancelOrder(b: Book, id: int): Effect {
    if !IsResting(b, id) then Effect(b, UnknownOrder, [], [])
    else Effect(RemoveResting(b, id), CancelledResult(RestingOrder(b, id)), [], [])
  }

  function RejectedReplace(status: SubmitStatus): OrderResult {
    OrderResult(status, 0, 0, false, 0, 0, 0, 0, Buy)
  }

  function ReplaceRefusal(cfg: Config, b: Book, oldId: int, amended: NewOrder): SubmitStatus {
    if !IsResting(b, oldId) then RejectedUnknownOrder
    else if amended.quantity <= 0 then RejectedInvalidQuantity
    else if !amended.kind.Market? && !InRange(cfg, amended.price) then RejectedPriceOutOfRange
    else if amended.id != oldId && IsResting(b, amended.id) then RejectedDuplicateId
    else Ok
  }

  function ReplaceOrder(cfg: Config, b: Book, oldId: int, amended: NewOrder): ReplaceEffect {
    var refusal := ReplaceRefusal(cfg, b, oldId, amended);
    if !refusal.Ok? then ReplaceEffect(Effect(b, RejectedReplace(refusal), [], []), false, RejectedReplace(Ok))
    else
      var c := CancelOrder(b, oldId);
      ReplaceEffect(Submit(cfg, c.book, amended), true, c.result)
  }

  function Step(cfg: Config, b: Book, c: Command): Effect {
    match c
    case New(o) => Submit(cfg, b, o)
    case Cancel(id) => CancelOrder(b, id)
    case Replace(oldId, amended) => ReplaceOrder(cfg, b, oldId, amended).effect
  }

  function Run(cfg: Config, b: Book, cs: seq<Command>): Book {
    if cs == [] then b else Step(cfg, Run(cfg, b, cs[..|cs| - 1]), cs[|cs| - 1]).book
  }
}
