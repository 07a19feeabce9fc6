/** The matching thread: it owns the book, dispatches one command at a time and publishes what happened. */
module MatchingThreads {
  import opened Types
  import opened Matcher
  import opened BookLaws
  import opened Sides
  import opened Verdicts
  import opened Events
  import opened SlotMatcher
  import opened FairPrices
  import opened OrderBooks

  const BUFFER_CAPACITY := 1024

  function EffectOf(e: SlotEffect): Effect {
    Effect(e.state.book, e.result, e.trades, e.victims)
  }

  // What dispatching `c` as command number `n` publishes, at any price.
  function SlotEventsOf(cfg: Config, b: SlotBook, c: Command, n: int, cap: nat): seq<Event>
    requires cfg.tick > 0
  {
    match c
    case New(o) => NewEvents(o, EffectOf(SlotSubmit(cfg, b, o)), n, cap)
    case Cancel(id) => CancelEvents(id, SlotCancel(cfg, b, id).result, n)
    case Replace(oldId, amended) =>
      var e := SlotReplace(cfg, b, oldId, amended);
      ReplaceEvents(oldId, amended, ReplaceEffect(EffectOf(e.effect), e.cancelled, e.removed), n, cap)
  }

  /** On the grid those are the events of the price-time matcher's step. */
  lemma GridEvents(cfg: Config, b: Book, c: Command, n: int, cap: nat)
    requires BookInv(cfg, b) && GridCommand(cfg, c)
    ensures SlotEventsOf(cfg, OfBook(b), c, n, cap) == EventsOf(cfg, b, c, n, cap)
  {
    hide BookInv, Submit, SlotSubmit, CancelOrder, SlotCancel, ReplaceOrder, SlotReplace, OfBook, NewEvents, CancelEvents, ReplaceEvents;
    OfBookBook(b);
    match c
    case New(o) =>
      GridSubmit(cfg, b, o);
      OfBookBook(Submit(cfg, b, o).book);
    case Cancel(id) =>
      GridCancel(cfg, b, id);
    case Replace(oldId, amended) =>
      GridReplace(cfg, b, oldId, amended);
      OfBookBook(ReplaceOrder(cfg, b, oldId, amended).effect.book);
  }

  class MatchingThread {
    const book: OrderBook
    const buf: Buffer<Trade>
    const victims: Buffer<Order>
    var dispatchSeq: int

    ghost function Footprint(): set<object> {
      book.Repr() + {buf, buf.data, victims, victims.data}
    }

    ghost predicate Buffers()
      reads buf, buf.data, victims, victims.data
    {
      buf.Valid() && victims.Valid() && buf.data.Length == victims.data.Length == BUFFER_CAPACITY
    }

    ghost predicate Valid()
      reads Footprint()
    {
      book.Sound(Buy, -1) && book.Outside(buf, victims) && Buffers() && this !in Footprint()
    }

    constructor (book: OrderBook, buf: Buffer<Trade>, victims: Buffer<Order>)
      requires book.Sound(Buy, -1) && book.Outside(buf, victims)
      requires buf.data.Length == victims.data.Length == BUFFER_CAPACITY
      ensures Valid() && this.book == book && this.buf == buf && this.victims == victims && dispatchSeq == 0
    {
      hide OrderBook.Sound, BookInv, OrdersOn;
      this.book, this.buf, this.victims, dispatchSeq := book, buf, victims, 0;
    }

    // The buffered trades as events, up to the buffer's capacity.
    method PublishTrades() returns (es: seq<Event>)
      requires Valid()
      ensures Valid() && book.SlotView() == old(book.SlotView()) && buf.log == old(buf.log) && victims.log == old(victims.log)
      ensures es == TradeEvents(Cut(buf.log, BUFFER_CAPACITY), dispatchSeq)
    {
      hide OrderBook.Sound, OrderBook.SlotView, OrderBook.Body;
      es := [];
      var i := 0;
      while i < buf.count && i < buf.data.Length
        invariant 0 <= i <= |Cut(buf.log, BUFFER_CAPACITY)|
        invariant es == TradeEvents(Cut(buf.log, BUFFER_CAPACITY), dispatchSeq)[..i]
      {
        es := es + [TradeEvent(buf.data[i], dispatchSeq)];
        i := i + 1;
      }
    }

    method PublishStpVictims() returns (es: seq<Event>)
      requires Valid()
      ensures Valid() && book.SlotView() == old(book.SlotView()) && buf.log == old(buf.log) && victims.log == old(victims.log)
      ensures es == VictimEvents(Cut(victims.log, BUFFER_CAPACITY), dispatchSeq)
    {
      hide OrderBook.Sound, OrderBook.SlotView, OrderBook.Body;
      es := [];
      var i := 0;
      while i < victims.count && i < victims.data.Length
        invariant 0 <= i <= |Cut(victims.log, BUFFER_CAPACITY)|
        invariant es == VictimEvents(Cut(victims.log, BUFFER_CAPACITY), dispatchSeq)[..i]
      {
        es := es + [CancelEvent(victims.data[i], dispatchSeq)];
        i := i + 1;
      }
    }

    method ReportNew(o: NewOrder, r: OrderResult) returns (es: seq<Event>)
      requires Valid()
      ensures Valid() && book.SlotView() == old(book.SlotView()) && buf.log == old(buf.log) && victims.log == old(victims.log)
      ensures es == NewEvents(o, Effect(EmptyBook, r, buf.log, victims.log), dispatchSeq, BUFFER_CAPACITY)
    {
      hide TradeEvents, VictimEvents, Cut, OrderBook.Sound, OrderBook.SlotView, OrderBook.Body;
      var trades := PublishTrades();
      var removals := PublishStpVictims();
      es := trades + removals;
      if !r.status.Ok? {
        es := es + [StatusEvent(o.id, r.status, dispatchSeq)];
      }
      es := es + [OutcomeEvent(o.id, r, dispatchSeq)];
    }

    method ReportReplace(oldId: int, amended: NewOrder, r: OrderResult, removed: OrderResult) returns (es: seq<Event>)
      requires Valid()
      ensures Valid() && book.SlotView() == old(book.SlotView()) && buf.log == old(buf.log) && victims.log == old(victims.log)
      ensures es == ReplaceEvents(oldId, amended, ReplaceEffect(Effect(EmptyBook, r, buf.log, victims.log), true, removed),
                                  dispatchSeq, BUFFER_CAPACITY)
    {
      hide TradeEvents, VictimEvents, Cut, OrderBook.Sound, OrderBook.SlotView, OrderBook.Body;
      es := [];
      var rejectedBeforeDispatch := RejectedBeforeDispatch(r.status);
      if !rejectedBeforeDispatch {
        es := [OrderUpdate(Cancelled, OrderOf(oldId, removed), Ok, dispatchSeq)];
      }
      var trades := PublishTrades();
      var removals := PublishStpVictims();
      es := es + trades + removals + [StatusEvent(amended.id, r.status, dispatchSeq)];
      if !rejectedBeforeDispatch {
        es := es + [OutcomeEvent(amended.id, r, dispatchSeq)];
      }
    }

    method DispatchNew(o: NewOrder) returns (es: seq<Event>)
      requires Valid() && buf.log == [] && victims.log == []
      modifies Footprint()
      ensures Valid() && dispatchSeq == old(dispatchSeq) && book.cfg.tick > 0
      ensures var e := SlotSubmit(book.cfg, old(book.SlotView()), o);
        book.SlotView() == e.state && es == NewEvents(o, EffectOf(e), dispatchSeq, BUFFER_CAPACITY)
    {
      hide OrderBook.Valid, OrderBook.Sound, OrderBook.View, OrderBook.SlotView, Submit, SlotSubmit, OrderBook.Body, TradeEvents, VictimEvents;
      var r := book.SubmitEx(o, buf, victims);
      ghost var e := SlotSubmit(book.cfg, old(book.SlotView()), o);
      assert buf.log == e.trades && victims.log == e.victims;
      es := ReportNew(o, r);
    }

    method DispatchCancel(id: int) returns (es: seq<Event>)
      requires Valid()
      modifies Footprint()
      ensures Valid() && dispatchSeq == old(dispatchSeq) && book.cfg.tick > 0
      ensures var e := SlotCancel(book.cfg, old(book.SlotView()), id);
        book.SlotView() == e.state && es == CancelEvents(id, e.result, dispatchSeq)
    {
      hide OrderBook.Valid, OrderBook.Sound, OrderBook.View, OrderBook.SlotView, CancelOrder, SlotCancel, OrderBook.Body;
      var r := book.CancelFor(id, buf, victims);
      es := [StatusEvent(id, r.status, dispatchSeq)];
      if r.status.Ok? {
        es := es + [OrderUpdate(Cancelled, OrderOf(id, r), Ok, dispatchSeq)];
      }
    }

    method DispatchReplace(oldId: int, amended: NewOrder) returns (es: seq<Event>)
      requires Valid() && buf.log == [] && victims.log == []
      modifies Footprint()
      ensures Valid() && dispatchSeq == old(dispatchSeq) && book.cfg.tick > 0
      ensures var e := SlotReplace(book.cfg, old(book.SlotView()), oldId, amended);
        && book.SlotView() == e.effect.state
        && es == ReplaceEvents(oldId, amended, ReplaceEffect(EffectOf(e.effect), e.cancelled, e.removed), dispatchSeq, BUFFER_CAPACITY)
    {
      hide OrderBook.Valid, OrderBook.Sound, OrderBook.View, OrderBook.SlotView, ReplaceOrder, SlotReplace, OrderBook.Body,
        TradeEvents, VictimEvents;
      var r, cancelled, removed := book.ReplaceEx(oldId, amended, buf, victims);
      ghost var e := SlotReplace(book.cfg, old(book.SlotView()), oldId, amended).effect;
      assert buf.log == e.trades && victims.log == e.victims;
      es := ReportReplace(oldId, amended, r, removed);
    }

    method Begin()
      requires Valid()
      modifies this`dispatchSeq, buf, victims
      ensures Valid() && buf.log == [] && victims.log == [] && book.SlotView() == old(book.SlotView())
      ensures dispatchSeq == old(dispatchSeq) + 1
    {
      hide OrderBook.Sound, OrderBook.SlotView, OrderBook.Body;
      book.ResetTrades(buf, victims);
      book.ResetVictims(buf, victims);
      dispatchSeq := dispatchSeq + 1;
    }

    /** One command, at any price: the book takes one step of the matcher, and exactly that step's events go out, each
        stamped with the command's own number. On the grid it is a step of the price-time matcher. */
    method Dispatch(c: Command) returns (es: seq<Event>)
      requires Valid()
      modifies this`dispatchSeq, Footprint()
      ensures Valid() && dispatchSeq == old(dispatchSeq) + 1 && book.cfg.tick > 0
      ensures book.SlotView() == SlotStep(book.cfg, old(book.SlotView()), c).state
      ensures es == SlotEventsOf(book.cfg, old(book.SlotView()), c, dispatchSeq, BUFFER_CAPACITY)
      ensures old(book.Valid()) && GridCommand(book.cfg, c) ==>
        && book.Valid() && book.View() == Step(book.cfg, old(book.View()), c).book
        && es == EventsOf(book.cfg, old(book.View()), c, dispatchSeq, BUFFER_CAPACITY)
    {
      hide OrderBook.Sound, OrderBook.View, OrderBook.SlotView, SlotStep, Step, SlotEventsOf, EventsOf, OrderBook.Body, BookInv, OfBook;
      ghost var b, onGrid := book.View(), book.Valid();
      book.Ticking();
      if onGrid && GridCommand(book.cfg, c) {
        StepKeeps(book.cfg, b, c);
        GridStep(book.cfg, b, c);
        GridEvents(book.cfg, b, c, dispatchSeq + 1, BUFFER_CAPACITY);
      }
      Begin();
      es := Route(c);
      if onGrid && GridCommand(book.cfg, c) {
        book.Regained(Step(book.cfg, b, c).book);
      }
    }

    // The switch over the kinds of command.
    method Route(c: Command) returns (es: seq<Event>)
      requires Valid() && buf.log == [] && victims.log == []
      modifies Footprint()
      ensures Valid() && dispatchSeq == old(dispatchSeq) && book.cfg.tick > 0
      ensures book.SlotView() == SlotStep(book.cfg, old(book.SlotView()), c).state
      ensures es == SlotEventsOf(book.cfg, old(book.SlotView()), c, dispatchSeq, BUFFER_CAPACITY)
    {
      hide OrderBook.Sound, OrderBook.SlotView, SlotSubmit, SlotCancel, SlotReplace, OrderBook.Body, NewEvents, CancelEvents, ReplaceEvents;
      match c {
        case New(o) => es := DispatchNew(o);
        case Cancel(id) => es := DispatchCancel(id);
        case Replace(oldId, amended) => es := DispatchReplace(oldId, amended);
      }
    }
  }
}
