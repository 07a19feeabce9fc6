/** The outbound events of one dispatched command, in the order the matching thread publishes them. */
module Events {
  import opened Types
  import opened Matcher
  import opened Verdicts

  datatype UpdateAction = Rested | Cancelled | NotRested | Replaced

  datatype Event =
    | TradeEvent(trade: Trade, globalSeq: int)
    | StatusEvent(id: int, status: SubmitStatus, globalSeq: int)
    | OrderUpdate(action: UpdateAction, order: Order, reason: SubmitStatus, globalSeq: int)

  // The fixed buffers hand on their first `cap` entries and no more.
  function Cut<T>(s: seq<T>, cap: nat): (r: seq<T>)
    ensures |s| <= cap <==> r == s
  {
    if |s| <= cap then s else s[..cap]
  }

  function TradeEvents(ts: seq<Trade>, n: int): (es: seq<Event>)
    ensures |es| == |ts|
  {
    seq(|ts|, i requires 0 <= i < |ts| => TradeEvent(ts[i], n))
  }

  function CancelEvent(x: Order, n: int): Event {
    OrderUpdate(Cancelled, x, Ok, n)
  }

  function VictimEvents(vs: seq<Order>, n: int): (es: seq<Event>)
    ensures |es| == |vs|
  {
    seq(|vs|, i requires 0 <= i < |vs| => CancelEvent(vs[i], n))
  }

  function OrderOf(id: int, r: OrderResult): Order {
    Order(id, r.price, r.quantity, r.remaining, r.participant, r.arrival, r.side)
  }

  // Whether the new order joined the book; everything else that can become of it touches no resting order.
  function OutcomeEvent(id: int, r: OrderResult, n: int): Event {
    if r.rested then OrderUpdate(Rested, OrderOf(id, r), Ok, n)
    else OrderUpdate(NotRested, OrderOf(id, r), r.status, n)
  }

  function NewEvents(o: NewOrder, e: Effect, n: int, cap: nat): seq<Event> {
    TradeEvents(Cut(e.trades, cap), n) + VictimEvents(Cut(e.victims, cap), n)
    + (if e.result.status.Ok? then [] else [StatusEvent(o.id, e.result.status, n)])
    + [OutcomeEvent(o.id, e.result, n)]
  }

  function CancelEvents(id: int, r: OrderResult, n: int): seq<Event> {
    [StatusEvent(id, r.status, n)] + (if r.status.Ok? then [CancelEvent(OrderOf(id, r), n)] else [])
  }

  function ReplaceEvents(oldId: int, amended: NewOrder, e: ReplaceEffect, n: int, cap: nat): seq<Event> {
    var r := e.effect.result;
    var cancelled := !RejectedBeforeDispatch(r.status);
    (if cancelled then [CancelEvent(OrderOf(oldId, e.removed), n)] else [])
    + TradeEvents(Cut(e.effect.trades, cap), n) + VictimEvents(Cut(e.effect.victims, cap), n)
    + [StatusEvent(amended.id, r.status, n)]
    + (if cancelled then [OutcomeEvent(amended.id, r, n)] else [])
  }

  // What dispatching `c` as command number `n` against book `b` publishes.
  function EventsOf(cfg: Config, b: Book, c: Command, n: int, cap: nat): seq<Event> {
    match c
    case New(o) => NewEvents(o, Submit(cfg, b, o), n, cap)
    case Cancel(id) => CancelEvents(id, CancelOrder(b, id).result, n)
    case Replace(oldId, amended) => ReplaceEvents(oldId, amended, ReplaceOrder(cfg, b, oldId, amended), n, cap)
  }
}
