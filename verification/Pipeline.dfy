/** Sequencer, ring and matching thread, interleaved step by step: what is journaled, what is in the ring and what the
    book has seen never disagree. */
module Pipeline {
  import opened Types
  import opened Matcher
  import opened Events
  import opened Mirrors
  import opened Recovery

  // The configuration, the ring's capacity, the event buffers' capacity and the recovered prefix of the journal.
  datatype Setup = Setup(cfg: Config, capacity: nat, buffers: nat, recovered: seq<Command>)

  // Where the sequencer is: `Claimed` and `Written` hold a command that is already journaled, `Reserved` one that is not.
  datatype Producer =
    | Idle
    | Appending(cmd: Command)
    | Pushing(cmd: Command)
    | Reserved(cmd: Command)
    | Claimed(cmd: Command)
    | Written(cmd: Command)
    | Stopped

  // Where the matching thread is.
  datatype Consumer =
    | Polling
    | Peeked
    | Dispatching(cmd: Command)
    | Dispatched

  datatype State = State(
    journal: seq<Command>, lastSeq: int, producer: Producer, cachedTail: int,
    slots: seq<Command>, head: int, tail: int,
    consumer: Consumer, cachedHead: int, book: Book, dispatchSeq: int, out: seq<Event>)

  // One atomic step of one of the two threads. Steps on a thread's own variables are merged with the next access to
  // a shared one.
  datatype Step =
    | Submit(cmd: Command)     // `submit` enters with a command
    | TrySubmit(cmd: Command)  // `trySubmit` enters: claim first, give up if the ring is full
    | Append                   // the journal append returns true
    | AppendFails              // it returns false: a hard stop
    | Claim                    // one `tryClaim` of the spinning push
    | Write                    // the command is stored into the claimed slot
    | Publish                  // the head moves
    | Peek                     // one `tryPeek`
    | Load                     // the dispatcher reads the slot
    | Dispatch                 // the book takes the command, its events go out
    | Consume                  // the tail moves

  function SlotOf(k: Setup, cursor: int): int
    requires k.capacity > 0
  {
    cursor % k.capacity
  }

  // The producer's view of the consumer after one `tryClaim`; a full ring is looked at again.
  function CachedTail(k: Setup, s: State): int {
    if s.head - s.cachedTail >= k.capacity then s.tail else s.cachedTail
  }

  function CachedHead(s: State): int {
    if s.tail == s.cachedHead then s.head else s.cachedHead
  }

  predicate Room(k: Setup, s: State) {
    s.head - CachedTail(k, s) < k.capacity
  }

  function Init(k: Setup): State
    requires k.capacity > 0
  {
    var n := |k.recovered|;
    State(k.recovered, n, Idle, 0, seq(k.capacity, _ => Cancel(0)), 0, 0,
          Polling, 0, Run(k.cfg, EmptyBook, k.recovered), n, [])
  }

  predicate Enabled(k: Setup, s: State, step: Step) {
    match step
    case Submit(_) => s.producer.Idle?
    case TrySubmit(_) => s.producer.Idle?
    case Append => s.producer.Appending? || s.producer.Reserved?
    case AppendFails => s.producer.Appending? || s.producer.Reserved?
    case Claim => s.producer.Pushing?
    case Write => s.producer.Claimed?
    case Publish => s.producer.Written?
    case Peek => s.consumer.Polling?
    case Load => s.consumer.Peeked?
    case Dispatch => s.consumer.Dispatching?
    case Consume => s.consumer.Dispatched?
  }

  function Do(k: Setup, s: State, step: Step): State
    requires k.capacity > 0 && |s.slots| == k.capacity && Enabled(k, s, step)
  {
    match step
    case Submit(c) => s.(producer := Appending(c))
    case TrySubmit(c) =>
      s.(cachedTail := CachedTail(k, s), producer := if Room(k, s) then Reserved(c) else Idle)
    case Append =>
      s.(journal := s.journal + [s.producer.cmd], lastSeq := s.lastSeq + 1,
         producer := if s.producer.Appending? then Pushing(s.producer.cmd) else Claimed(s.producer.cmd))
    case AppendFails => s.(producer := Stopped)
    case Claim =>
      s.(cachedTail := CachedTail(k, s), producer := if Room(k, s) then Claimed(s.producer.cmd) else s.producer)
    case Write =>
      s.(slots := s.slots[SlotOf(k, s.head) := s.producer.cmd], producer := Written(s.producer.cmd))
    case Publish => s.(head := s.head + 1, producer := Idle)
    case Peek =>
      s.(cachedHead := CachedHead(s), consumer := if s.tail == CachedHead(s) then Polling else Peeked)
    case Load => s.(consumer := Dispatching(s.slots[SlotOf(k, s.tail)]))
    case Dispatch =>
      var c := s.consumer.cmd;
      s.(dispatchSeq := s.dispatchSeq + 1, book := Matcher.Step(k.cfg, s.book, c).book,
         out := s.out + EventsOf(k.cfg, s.book, c, s.dispatchSeq + 1, k.buffers), consumer := Dispatched)
    case Consume => s.(tail := s.tail + 1, consumer := Polling)
  }

  // ---------------------------------------------------------------------------------------------
  // The invariant
  // ---------------------------------------------------------------------------------------------

  // One command is journaled but not yet published.
  predicate InFlight(s: State) {
    s.producer.Pushing? || s.producer.Claimed? || s.producer.Written?
  }

  ghost predicate Cursors(k: Setup, s: State) {
    && 0 <= s.cachedTail <= s.tail <= s.cachedHead <= s.head <= s.tail + k.capacity
    && (s.producer.Reserved? || s.producer.Claimed? || s.producer.Written? ==> s.head < s.tail + k.capacity)
    && (!s.consumer.Polling? ==> s.tail < s.cachedHead)
  }

  ghost predicate Numbers(k: Setup, s: State) {
    && s.lastSeq == |s.journal| == |k.recovered| + s.head + (if InFlight(s) then 1 else 0)
    && s.dispatchSeq == |k.recovered| + s.tail + (if s.consumer.Dispatched? then 1 else 0)
    && k.recovered <= s.journal
  }

  // The slots between the cursors hold the journal's commands, and so do the registers of both threads.
  ghost predicate Contents(k: Setup, s: State)
    requires k.capacity > 0 && |s.slots| == k.capacity && Cursors(k, s) && Numbers(k, s)
  {
    var n := |k.recovered|;
    && (forall p {:trigger SlotOf(k, p)} :: s.tail <= p < s.head ==> s.slots[SlotOf(k, p)] == s.journal[n + p])
    && (InFlight(s) ==> s.producer.cmd == s.journal[n + s.head])
    && (s.producer.Written? ==> s.slots[SlotOf(k, s.head)] == s.journal[n + s.head])
    && (s.consumer.Dispatching? ==> s.consumer.cmd == s.journal[n + s.tail])
  }

  ghost predicate Inv(k: Setup, s: State) {
    && k.capacity > 0 && |s.slots| == k.capacity
    && Cursors(k, s) && Numbers(k, s) && Contents(k, s)
    && s.book == Run(k.cfg, EmptyBook, s.journal[..s.dispatchSeq])
    && s.out == EventsOfRun(k.cfg, Run(k.cfg, EmptyBook, k.recovered), s.journal[|k.recovered|..s.dispatchSeq],
                            |k.recovered| + 1, k.buffers)
  }

  // Positions less than a lap apart are different slots.
  lemma SlotsApart(k: Setup, p: int, q: int)
    requires k.capacity > 0 && 0 < q - p < k.capacity
    ensures SlotOf(k, p) != SlotOf(k, q)
  {
    var n := k.capacity;
    var d := q / n - p / n;
    assert q - p == d * n + (q % n - p % n);
    assert d <= 0 ==> d * n <= 0;
    assert d >= 1 ==> d * n >= n;
  }

  // ---------------------------------------------------------------------------------------------
  // Every step keeps it
  // ---------------------------------------------------------------------------------------------

  lemma RunOne(cfg: Config, journal: seq<Command>, i: nat)
    requires i < |journal|
    ensures Run(cfg, EmptyBook, journal[..i + 1]) == Matcher.Step(cfg, Run(cfg, EmptyBook, journal[..i]), journal[i]).book
  {
    assert journal[..i + 1][..i] == journal[..i];
  }

  lemma EventsOne(k: Setup, journal: seq<Command>, i: nat)
    requires k.recovered <= journal && |k.recovered| <= i < |journal|
    ensures var n, b := |k.recovered|, Run(k.cfg, EmptyBook, k.recovered);
      EventsOfRun(k.cfg, b, journal[n..i + 1], n + 1, k.buffers)
      == EventsOfRun(k.cfg, b, journal[n..i], n + 1, k.buffers)
         + EventsOf(k.cfg, Run(k.cfg, EmptyBook, journal[..i]), journal[i], i + 1, k.buffers)
  {
    hide EventsOf, Matcher.Step;
    var n, b := |k.recovered|, Run(k.cfg, EmptyBook, k.recovered);
    assert journal[n..i + 1][..i - n] == journal[n..i] && journal[n..i + 1][i - n] == journal[i];
    assert journal[..i] == k.recovered + journal[n..i];
    RunSplit(k.cfg, EmptyBook, k.recovered, journal[n..i]);
  }

  lemma ProducerKeeps(k: Setup, s: State, step: Step)
    requires Inv(k, s) && Enabled(k, s, step)
    requires step.Submit? || step.TrySubmit? || step.AppendFails? || step.Claim? || step.Publish? || step.Append?
    ensures Inv(k, Do(k, s, step))
  {
    hide Run, EventsOfRun;
    var s' := Do(k, s, step);
    assert s'.journal[..s.dispatchSeq] == s.journal[..s.dispatchSeq];
    assert s'.journal[|k.recovered|..s.dispatchSeq] == s.journal[|k.recovered|..s.dispatchSeq];
  }

  lemma WriteKeeps(k: Setup, s: State)
    requires Inv(k, s) && Enabled(k, s, Write)
    ensures Inv(k, Do(k, s, Write))
  {
    hide Run, EventsOfRun;
    var s' := Do(k, s, Write);
    forall p | s.tail <= p < s.head ensures s'.slots[SlotOf(k, p)] == s.journal[|k.recovered| + p] {
      SlotsApart(k, p, s.head);
    }
  }

  lemma ConsumerKeeps(k: Setup, s: State, step: Step)
    requires Inv(k, s) && Enabled(k, s, step) && (step.Peek? || step.Load? || step.Consume?)
    ensures Inv(k, Do(k, s, step))
  {
    hide Run, EventsOfRun;
    assert SlotOf(k, s.tail) == s.tail % k.capacity;
  }

  lemma DispatchKeeps(k: Setup, s: State)
    requires Inv(k, s) && Enabled(k, s, Dispatch)
    ensures Inv(k, Do(k, s, Dispatch))
  {
    hide Run, EventsOfRun, EventsOf, Matcher.Step;
    RunOne(k.cfg, s.journal, s.dispatchSeq);
    EventsOne(k, s.journal, s.dispatchSeq);
  }

  lemma StepKeeps(k: Setup, s: State, step: Step)
    requires Inv(k, s) && Enabled(k, s, step)
    ensures Inv(k, Do(k, s, step))
  {
    hide Inv, Do;
    match step
    case Write => WriteKeeps(k, s);
    case Dispatch => DispatchKeeps(k, s);
    case Peek => ConsumerKeeps(k, s, step);
    case Load => ConsumerKeeps(k, s, step);
    case Consume => ConsumerKeeps(k, s, step);
    case _ => ProducerKeeps(k, s, step);
  }

  // ---------------------------------------------------------------------------------------------
  // Whole runs
  // ---------------------------------------------------------------------------------------------

  // The state after an interleaving of the two threads; a step a thread is not ready for does not happen.
  function After(k: Setup, steps: seq<Step>): (s: State)
    requires k.capacity > 0
    ensures |s.slots| == k.capacity
  {
    if steps == [] then Init(k)
    else
      var last := |steps| - 1;
      var s := After(k, steps[..last]);
      if Enabled(k, s, steps[last]) then Do(k, s, steps[last]) else s
  }

  lemma InitInv(k: Setup)
    requires k.capacity > 0
    ensures Inv(k, Init(k))
  {
    assert k.recovered[..|k.recovered|] == k.recovered;
  }

  lemma {:induction false} AfterInv(k: Setup, steps: seq<Step>)
    requires k.capacity > 0
    ensures Inv(k, After(k, steps))
  {
    hide Inv, Do, Enabled;
    if steps == [] {
      InitInv(k);
    } else {
      var last := |steps| - 1;
      AfterInv(k, steps[..last]);
      if Enabled(k, After(k, steps[..last]), steps[last]) {
        StepKeeps(k, After(k, steps[..last]), steps[last]);
      }
    }
  }

  // The commands published and not yet dispatched, as they stand in the ring.
  function Pending(k: Setup, s: State): seq<Command>
    requires k.capacity > 0 && |s.slots| == k.capacity
  {
    var first := s.dispatchSeq - |k.recovered|;
    if first <= s.head then seq(s.head - first, i => s.slots[SlotOf(k, first + i)]) else []
  }

  /** Over every interleaving: the ring holds exactly the journal records after the last dispatched one, in order and
      without the one still in the sequencer's hands; the book is the replay of the dispatched records; what was
      published is what that replay publishes; and nothing is dispatched that is not journaled. */
  lemma WriteAhead(k: Setup, steps: seq<Step>)
    requires k.capacity > 0
    ensures var s := After(k, steps);
      && |k.recovered| <= s.dispatchSeq <= |s.journal| == s.lastSeq
      && |k.recovered| + s.head <= |s.journal| <= |k.recovered| + s.head + 1
      && (InFlight(s) <==> |s.journal| == |k.recovered| + s.head + 1)
      && s.dispatchSeq <= |k.recovered| + s.head
      && Pending(k, s) == s.journal[s.dispatchSeq..|k.recovered| + s.head]
      && s.book == Run(k.cfg, EmptyBook, s.journal[..s.dispatchSeq])
      && s.out == EventsOfRun(k.cfg, Run(k.cfg, EmptyBook, k.recovered), s.journal[|k.recovered|..s.dispatchSeq],
                              |k.recovered| + 1, k.buffers)
  {
    hide Run, EventsOfRun, After;
    AfterInv(k, steps);
  }

  /** Every event carries the number of the command that caused it. */
  lemma Stamped(cfg: Config, b: Book, c: Command, n: int, cap: nat)
    ensures forall i :: 0 <= i < |EventsOf(cfg, b, c, n, cap)| ==> EventsOf(cfg, b, c, n, cap)[i].globalSeq == n
  {
    hide Matcher.Submit, CancelOrder, ReplaceOrder, Cut;
  }
}
