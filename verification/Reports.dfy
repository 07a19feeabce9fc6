/** What the published events of a command say: its trades, its statuses and its order updates. */
module Reports {
  import opened Types
  import opened Matcher
  import opened BookLaws
  import opened Events
  import opened Answers

  // ---------------------------------------------------------------------------------------------
  // The events of one kind, in order
  // ---------------------------------------------------------------------------------------------

  datatype Status = Status(id: int, status: SubmitStatus)

  datatype Update = Update(action: UpdateAction, order: Order, reason: SubmitStatus)

  function TradesIn(es: seq<Event>): seq<Trade> {
    if es == [] then [] else (if es[0].TradeEvent? then [es[0].trade] else []) + TradesIn(es[1..])
  }

  function StatusesIn(es: seq<Event>): seq<Status> {
    if es == [] then [] else (if es[0].StatusEvent? then [Status(es[0].id, es[0].status)] else []) + StatusesIn(es[1..])
  }

  function UpdatesIn(es: seq<Event>): seq<Update> {
    if es == [] then []
    else (if es[0].OrderUpdate? then [Update(es[0].action, es[0].order, es[0].reason)] else []) + UpdatesIn(es[1..])
  }

  // A cancellation for each order.
  function Cancellations(xs: seq<Order>): seq<Update> {
    if xs == [] then [] else [Update(Cancelled, xs[0], Ok)] + Cancellations(xs[1..])
  }

  // As much as a buffer of this capacity holds.
  function Kept<T>(s: seq<T>, cap: nat): seq<T> {
    s[..if cap < |s| then cap else |s|]
  }

  lemma {:induction false} TradesConcat(a: seq<Event>, b: seq<Event>)
    ensures TradesIn(a + b) == TradesIn(a) + TradesIn(b)
  {
    if a == [] {
      assert a + b == b;
    } else {
      assert (a + b)[0] == a[0] && (a + b)[1..] == a[1..] + b;
      TradesConcat(a[1..], b);
    }
  }

  lemma {:induction false} StatusesConcat(a: seq<Event>, b: seq<Event>)
    ensures StatusesIn(a + b) == StatusesIn(a) + StatusesIn(b)
  {
    if a == [] {
      assert a + b == b;
    } else {
      assert (a + b)[0] == a[0] && (a + b)[1..] == a[1..] + b;
      StatusesConcat(a[1..], b);
    }
  }

  lemma {:induction false} UpdatesConcat(a: seq<Event>, b: seq<Event>)
    ensures UpdatesIn(a + b) == UpdatesIn(a) + UpdatesIn(b)
  {
    if a == [] {
      assert a + b == b;
    } else {
      assert (a + b)[0] == a[0] && (a + b)[1..] == a[1..] + b;
      UpdatesConcat(a[1..], b);
    }
  }

  lemma InConcat(a: seq<Event>, b: seq<Event>)
    ensures TradesIn(a + b) == TradesIn(a) + TradesIn(b)
    ensures StatusesIn(a + b) == StatusesIn(a) + StatusesIn(b)
    ensures UpdatesIn(a + b) == UpdatesIn(a) + UpdatesIn(b)
  {
    hide TradesIn, StatusesIn, UpdatesIn;
    TradesConcat(a, b);
    StatusesConcat(a, b);
    UpdatesConcat(a, b);
  }

  lemma {:induction false} InTrades(ts: seq<Trade>, n: int)
    ensures TradesIn(TradeEvents(ts, n)) == ts && StatusesIn(TradeEvents(ts, n)) == [] && UpdatesIn(TradeEvents(ts, n)) == []
  {
    if ts != [] {
      assert TradeEvents(ts, n)[1..] == TradeEvents(ts[1..], n);
      InTrades(ts[1..], n);
    }
  }

  lemma {:induction false} InVictims(xs: seq<Order>, n: int)
    ensures var es := VictimEvents(xs, n); TradesIn(es) == [] && StatusesIn(es) == [] && UpdatesIn(es) == Cancellations(xs)
  {
    if xs != [] {
      assert VictimEvents(xs, n)[1..] == VictimEvents(xs[1..], n);
      InVictims(xs[1..], n);
    }
  }

  lemma InOne(e: Event)
    ensures TradesIn([e]) == if e.TradeEvent? then [e.trade] else []
    ensures StatusesIn([e]) == if e.StatusEvent? then [Status(e.id, e.status)] else []
    ensures UpdatesIn([e]) == if e.OrderUpdate? then [Update(e.action, e.order, e.reason)] else []
    ensures TradesIn([]) == [] && StatusesIn([]) == [] && UpdatesIn([]) == []
  {
    assert [e][1..] == [];
  }

  lemma CutKeeps<T>(s: seq<T>, cap: nat)
    ensures Cut(s, cap) == Kept(s, cap)
  {
  }

  // ---------------------------------------------------------------------------------------------
  // The answers published
  // ---------------------------------------------------------------------------------------------

  // What became of the order itself: its own terms, what is left of it, and why it does not rest.
  function Outcome(o: NewOrder, r: OrderResult): Update {
    var x := Order(o.id, o.price, o.quantity, r.remaining, o.participant, r.arrival, o.side);
    if r.rested then Update(Rested, x, Ok) else Update(NotRested, x, r.status)
  }

  lemma OutcomeIs(o: NewOrder, r: OrderResult, n: int)
    requires r.price == o.price && r.quantity == o.quantity && r.participant == o.participant && r.side == o.side
    ensures var e := OutcomeEvent(o.id, r, n); e.OrderUpdate? && Update(e.action, e.order, e.reason) == Outcome(o, r)
  {
  }

  lemma SubmitTerms(cfg: Config, b: Book, o: NewOrder)
    ensures var r := Submit(cfg, b, o).result;
      r.price == o.price && r.quantity == o.quantity && r.participant == o.participant && r.side == o.side
  {
    hide Match, Refusal, Insert;
  }

  // The trades and removals of a submission, then its status where it has one, then its outcome.
  lemma ReportOf(ts: seq<Trade>, vs: seq<Order>, status: seq<Event>, last: seq<Event>, n: int)
    ensures var es := TradeEvents(ts, n) + VictimEvents(vs, n) + status + last;
      && TradesIn(es) == ts + TradesIn(status) + TradesIn(last)
      && StatusesIn(es) == StatusesIn(status) + StatusesIn(last)
      && UpdatesIn(es) == Cancellations(vs) + UpdatesIn(status) + UpdatesIn(last)
  {
    hide TradesIn, StatusesIn, UpdatesIn, TradeEvents, VictimEvents, Cancellations;
    var a, b := TradeEvents(ts, n), VictimEvents(vs, n);
    InTrades(ts, n);
    InVictims(vs, n);
    InConcat(a, b);
    InConcat(a + b, status);
    InConcat(a + b + status, last);
  }

  /** A new order publishes its trades and the orders it removed, as far as the buffers hold them, one status exactly if
      its result is not `Ok`, and last what became of it. */
  lemma NewReports(cfg: Config, b: Book, o: NewOrder, n: int, cap: nat)
    ensures var es, e := EventsOf(cfg, b, New(o), n, cap), Submit(cfg, b, o);
      && TradesIn(es) == Kept(e.trades, cap)
      && StatusesIn(es) == (if e.result.status == Ok then [] else [Status(o.id, e.result.status)])
      && UpdatesIn(es) == Cancellations(Kept(e.victims, cap)) + [Outcome(o, e.result)]
  {
    hide Submit, TradesIn, StatusesIn, UpdatesIn, TradeEvents, VictimEvents, Cancellations, OutcomeEvent, Outcome, Cut, Kept;
    var e := Submit(cfg, b, o);
    var status := if e.result.status.Ok? then [] else [StatusEvent(o.id, e.result.status, n)];
    CutKeeps(e.trades, cap);
    CutKeeps(e.victims, cap);
    SubmitTerms(cfg, b, o);
    OutcomeIs(o, e.result, n);
    InOne(StatusEvent(o.id, e.result.status, n));
    InOne(OutcomeEvent(o.id, e.result, n));
    ReportOf(Cut(e.trades, cap), Cut(e.victims, cap), status, [OutcomeEvent(o.id, e.result, n)], n);
  }

  /** A cancel publishes exactly one status, under its own id: `Ok` if some listed order has that id and
      `RejectedUnknownOrder` if none has. */
  lemma CancelReports(cfg: Config, b: Book, id: int, n: int, cap: nat)
    ensures var es := EventsOf(cfg, b, Cancel(id), n, cap);
      && StatusesIn(es) == [Status(id, if Listed(b, id) then Ok else RejectedUnknownOrder)]
      && TradesIn(es) == [] && (!Listed(b, id) ==> UpdatesIn(es) == [])
  {
    hide TradesIn, StatusesIn, UpdatesIn, CancelOrder, Listed;
    var r := CancelOrder(b, id).result;
    CancelKnownIff(b, id);
    InOne(StatusEvent(id, r.status, n));
    InOne(CancelEvent(OrderOf(id, r), n));
    InConcat([StatusEvent(id, r.status, n)], if r.status.Ok? then [CancelEvent(OrderOf(id, r), n)] else []);
  }

  /** And the cancelled order, as it waited. */
  lemma CancelReportsOrder(cfg: Config, b: Book, side: Side, k: nat, n: int, cap: nat)
    requires BookInv(cfg, b) && k < |SideOf(b, side)|
    ensures UpdatesIn(EventsOf(cfg, b, Cancel(SideOf(b, side)[k].id), n, cap)) == [Update(Cancelled, SideOf(b, side)[k], Ok)]
  {
    hide TradesIn, StatusesIn, UpdatesIn, CancelOrder, BookInv;
    var x := SideOf(b, side)[k];
    CancelTakes(cfg, b, side, k);
    var r := CancelOrder(b, x.id).result;
    InOne(StatusEvent(x.id, r.status, n));
    InOne(CancelEvent(OrderOf(x.id, r), n));
    InConcat([StatusEvent(x.id, r.status, n)], [CancelEvent(OrderOf(x.id, r), n)]);
  }

  // The cancellation in front and the outcome behind, where there are such.
  lemma ReplaceReportOf(oldId: int, amended: NewOrder, e: ReplaceEffect, n: int, cap: nat)
    ensures var es, r := ReplaceEvents(oldId, amended, e, n, cap), e.effect.result;
      var first := if Verdicts.RejectedBeforeDispatch(r.status) then [] else [Update(Cancelled, OrderOf(oldId, e.removed), Ok)];
      var u := OutcomeEvent(amended.id, r, n);
      && TradesIn(es) == Kept(e.effect.trades, cap)
      && StatusesIn(es) == [Status(amended.id, r.status)]
      && u.OrderUpdate?
      && UpdatesIn(es) == first + Cancellations(Kept(e.effect.victims, cap))
           + if Verdicts.RejectedBeforeDispatch(r.status) then [] else [Update(u.action, u.order, u.reason)]
  {
    hide TradesIn, StatusesIn, UpdatesIn, TradeEvents, VictimEvents, Cancellations, Cut, Kept;
    var r := e.effect.result;
    var cancelled := !Verdicts.RejectedBeforeDispatch(r.status);
    var front := if cancelled then [CancelEvent(OrderOf(oldId, e.removed), n)] else [];
    var last := if cancelled then [OutcomeEvent(amended.id, r, n)] else [];
    var status := [StatusEvent(amended.id, r.status, n)];
    var body := TradeEvents(Cut(e.effect.trades, cap), n) + VictimEvents(Cut(e.effect.victims, cap), n) + status + last;
    CutKeeps(e.effect.trades, cap);
    CutKeeps(e.effect.victims, cap);
    InOne(CancelEvent(OrderOf(oldId, e.removed), n));
    InOne(OutcomeEvent(amended.id, r, n));
    InOne(StatusEvent(amended.id, r.status, n));
    ReportOf(Cut(e.effect.trades, cap), Cut(e.effect.victims, cap), status, last, n);
    InConcat(front, body);
    assert ReplaceEvents(oldId, amended, e, n, cap) == front + body;
  }

  /** A replace publishes exactly one status, under the new id and with its result's status, the trades and removals of
      the new order, and exactly if it cancelled, the old order's cancellation first and the new one's outcome last. */
  lemma ReplaceReports(cfg: Config, b: Book, oldId: int, amended: NewOrder, n: int, cap: nat)
    requires BookInv(cfg, b)
    ensures var es, e := EventsOf(cfg, b, Replace(oldId, amended), n, cap), ReplaceOrder(cfg, b, oldId, amended);
      && TradesIn(es) == Kept(e.effect.trades, cap)
      && StatusesIn(es) == [Status(amended.id, e.effect.result.status)]
      && (!e.cancelled ==> UpdatesIn(es) == [])
      && (e.cancelled ==>
            UpdatesIn(es) == [Update(Cancelled, OrderOf(oldId, e.removed), Ok)] + Cancellations(Kept(e.effect.victims, cap))
                             + [Outcome(amended, e.effect.result)])
  {
    hide Submit, BookInv, TradesIn, StatusesIn, UpdatesIn, OutcomeEvent, Outcome, ReplaceEvents, CancelOrder, Find;
    var e := ReplaceOrder(cfg, b, oldId, amended);
    ReplaceReportOf(oldId, amended, e, n, cap);
    Verdicts.ReplaceRejectedIff(cfg, b, oldId, amended);
    if e.cancelled {
      SubmitTerms(cfg, CancelOrder(b, oldId).book, amended);
      OutcomeIs(amended, e.effect.result, n);
    }
  }

  /** The cancellation is of the old order as it waited. */
  lemma ReplaceReportsOrder(cfg: Config, b: Book, side: Side, k: nat, amended: NewOrder)
    requires BookInv(cfg, b) && k < |SideOf(b, side)| && ReplaceOrder(cfg, b, SideOf(b, side)[k].id, amended).cancelled
    ensures var x := SideOf(b, side)[k]; OrderOf(x.id, ReplaceOrder(cfg, b, x.id, amended).removed) == x
  {
    hide Submit, BookInv, CancelOrder, Find;
    CancelTakes(cfg, b, side, k);
  }

  // From position `at` on: `t` trades, `v` updates, `s` statuses, then updates only.
  ghost predicate Arranged(es: seq<Event>, at: int, t: int, v: int, s: int) {
    forall i :: at <= i < |es| && 0 <= i ==>
      if i < at + t then es[i].TradeEvent? else if at + t + v <= i < at + t + v + s then es[i].StatusEvent? else es[i].OrderUpdate?
  }

  /** The trades come first, then the removals, then the status, and the outcome last; a replace puts the cancellation in
      front, and a cancel its status. */
  lemma InOrder(cfg: Config, b: Book, c: Command, n: int, cap: nat)
    requires BookInv(cfg, b)
    ensures var es, e := EventsOf(cfg, b, c, n, cap), Step(cfg, b, c);
      var t, v := |Kept(e.trades, cap)|, |Kept(e.victims, cap)|;
      match c
      case New(_) => var s := if e.result.status == Ok then 0 else 1; |es| == t + v + s + 1 && Arranged(es, 0, t, v, s)
      case Cancel(id) => Arranged(es, 0, 0, 0, 1) && |es| == if Listed(b, id) then 2 else 1
      case Replace(oldId, amended) =>
        var front := if ReplaceOrder(cfg, b, oldId, amended).cancelled then 1 else 0;
        && |es| == front + t + v + 1 + front && Arranged(es, front, t, v, 1)
        && (front == 1 ==> es[0].OrderUpdate? && es[0].action == Cancelled)
  {
    hide Submit, CancelOrder, BookInv, Listed, Find;
    var e := Step(cfg, b, c);
    CutKeeps(e.trades, cap);
    CutKeeps(e.victims, cap);
    match c
    case New(_) =>
    case Cancel(id) => CancelKnownIff(b, id);
    case Replace(oldId, amended) => Verdicts.ReplaceRejectedIff(cfg, b, oldId, amended);
  }
}
