/** The multicast ring: one producer, gating consumers it waits for and non-gating consumers it laps, with every slot
    written and copied word by word. */
module Multicast {
  import opened Types

  type Word = int
  type Event = seq<Word>

  // The number of slots and the number of words in one.
  datatype Setup = Setup(capacity: nat, words: nat)

  datatype Producer =
    | Idle
    | Scanning(event: Event, next: nat, least: Option<int>)  // reading the gating cursors one after the other
    | Writing(event: Event, done: nat)                       // a slot is claimed, `done` of its words are stored

  datatype Phase =
    | Rest
    | Looked                     // non-gating: not empty, about to check for a lap
    | Copying(copied: Event)     // the words copied so far
    | Holding(value: Event)      // a complete value the caller may use

  // What a consumer got, in order: events, and gaps it was told of.
  datatype Seen =
    | Got(at: int, event: Event)
    | Lapped(from: int, to: int)

  datatype Consumer = Consumer(gating: bool, tail: int, cachedHead: int, phase: Phase, seen: seq<Seen>)

  // `log` is ghost knowledge: the event published at each position.
  datatype State = State(slots: seq<Event>, head: int, cachedMinTail: int, producer: Producer, consumers: seq<Consumer>, log: seq<Event>)

  datatype Step =
    | Claim(event: Event)   // `tryClaim`: from the cache, or start reading the gating cursors
    | Scan                  // read one more gating cursor, or finish
    | WriteWord             // store the next word of the claimed slot
    | Publish
    | Peek(c: nat)          // look for something to read
    | Check(c: nat)         // non-gating: first load of the head
    | CopyWord(c: nat)      // copy the next word of the slot at the cursor
    | Finish(c: nat)        // all words copied; non-gating: second load of the head
    | Consume(c: nat)

  function SlotOf(k: Setup, cursor: int): int
    requires k.capacity > 0
  {
    cursor % k.capacity
  }

  function Least(a: Option<int>, b: int): Option<int> {
    if a.Some? && a.value <= b then a else Some(b)
  }

  predicate Shaped(k: Setup, s: State) {
    && k.capacity > 0 && |s.slots| == k.capacity && s.head == |s.log|
    && (forall i :: 0 <= i < |s.slots| ==> |s.slots[i]| == k.words)
    && (forall i :: 0 <= i < |s.log| ==> |s.log[i]| == k.words)
    && (s.producer.Scanning? ==> |s.producer.event| == k.words)
    && (s.producer.Writing? ==> |s.producer.event| == k.words && s.producer.done <= k.words)
    && (forall c :: 0 <= c < |s.consumers| && s.consumers[c].phase.Copying? ==> |s.consumers[c].phase.copied| <= k.words)
  }

  predicate Enabled(k: Setup, s: State, step: Step) {
    match step
    case Claim(e) => s.producer.Idle? && |e| == k.words
    case Scan => s.producer.Scanning?
    case WriteWord => s.producer.Writing? && s.producer.done < k.words
    case Publish => s.producer.Writing? && s.producer.done == k.words
    case Peek(c) => c < |s.consumers| && s.consumers[c].phase.Rest?
    case Check(c) => c < |s.consumers| && s.consumers[c].phase.Looked?
    case CopyWord(c) => c < |s.consumers| && s.consumers[c].phase.Copying? && |s.consumers[c].phase.copied| < k.words
    case Finish(c) => c < |s.consumers| && s.consumers[c].phase.Copying? && |s.consumers[c].phase.copied| == k.words
    case Consume(c) => c < |s.consumers| && s.consumers[c].phase.Holding?
  }

  // ---------------------------------------------------------------------------------------------
  // The steps of a consumer
  // ---------------------------------------------------------------------------------------------

  function CachedHead(x: Consumer, head: int): int {
    if x.tail == x.cachedHead then head else x.cachedHead
  }

  function Peeked(x: Consumer, head: int): Consumer {
    var cached := CachedHead(x, head);
    x.(cachedHead := cached,
       phase := if x.tail == cached then Rest else if x.gating then Copying([]) else Looked)
  }

  // Snap to the newest position and report the gap.
  function Lapse(x: Consumer, head: int): Consumer {
    x.(tail := head, cachedHead := head, phase := Rest, seen := x.seen + [Lapped(x.tail, head)])
  }

  function Checked(k: Setup, x: Consumer, head: int): Consumer {
    if head - x.tail >= k.capacity then Lapse(x, head) else x.(phase := Copying([]))
  }

  function Finished(k: Setup, x: Consumer, head: int): Consumer
    requires x.phase.Copying?
  {
    if !x.gating && head - x.tail >= k.capacity then Lapse(x, head) else x.(phase := Holding(x.phase.copied))
  }

  function Consumed(x: Consumer): Consumer
    requires x.phase.Holding?
  {
    x.(tail := x.tail + 1, phase := Rest, seen := x.seen + [Got(x.tail, x.phase.value)])
  }

  function ConsumerDo(k: Setup, s: State, step: Step): Consumer
    requires Shaped(k, s) && Enabled(k, s, step) && !(step.Claim? || step.Scan? || step.WriteWord? || step.Publish?)
  {
    var x := s.consumers[step.c];
    match step
    case Peek(_) => Peeked(x, s.head)
    case Check(_) => Checked(k, x, s.head)
    case CopyWord(_) => x.(phase := Copying(x.phase.copied + [s.slots[SlotOf(k, x.tail)][|x.phase.copied|]]))
    case Finish(_) => Finished(k, x, s.head)
    case Consume(_) => Consumed(x)
  }

  function Do(k: Setup, s: State, step: Step): State
    requires Shaped(k, s) && Enabled(k, s, step)
  {
    match step
    case Claim(e) =>
      s.(producer := if s.head - s.cachedMinTail >= k.capacity then Scanning(e, 0, None) else Writing(e, 0))
    case Scan =>
      var p := s.producer;
      if p.next < |s.consumers| then
        var x := s.consumers[p.next];
        s.(producer := p.(next := p.next + 1, least := if x.gating then Least(p.least, x.tail) else p.least))
      else
        var cached := if p.least.Some? then p.least.value else s.head;
        s.(cachedMinTail := cached, producer := if s.head - cached >= k.capacity then Idle else Writing(p.event, 0))
    case WriteWord =>
      var i, j := SlotOf(k, s.head), s.producer.done;
      s.(slots := s.slots[i := s.slots[i][j := s.producer.event[j]]], producer := s.producer.(done := j + 1))
    case Publish => s.(head := s.head + 1, log := s.log + [s.producer.event], producer := Idle)
    case _ => s.(consumers := s.consumers[step.c := ConsumerDo(k, s, step)])
  }

  // ---------------------------------------------------------------------------------------------
  // The invariant
  // ---------------------------------------------------------------------------------------------

  // The positions whose slots the producer has not begun to overwrite.
  predicate Intact(k: Setup, s: State, p: int) {
    0 <= p < s.head && (s.head < p + k.capacity || (s.head == p + k.capacity && !s.producer.Writing?))
  }

  ghost predicate SlotsOk(k: Setup, s: State)
    requires Shaped(k, s)
  {
    && (forall p {:trigger SlotOf(k, p)} :: Intact(k, s, p) ==> s.slots[SlotOf(k, p)] == s.log[p])
    && (s.producer.Writing? ==> s.slots[SlotOf(k, s.head)][..s.producer.done] == s.producer.event[..s.producer.done])
  }

  // The producer's cached minimum is behind every gating cursor, and so is what it has read of a new one.
  ghost predicate GateOk(k: Setup, s: State) {
    && s.cachedMinTail <= s.head
    && (forall c :: 0 <= c < |s.consumers| && s.consumers[c].gating ==> s.cachedMinTail <= s.consumers[c].tail)
    && (s.producer.Writing? ==> s.head < s.cachedMinTail + k.capacity)
    && (s.producer.Scanning? ==>
          && s.producer.next <= |s.consumers|
          && (s.producer.least.Some? ==> s.producer.least.value <= s.head)
          && forall c :: 0 <= c < s.producer.next && s.consumers[c].gating ==>
               s.producer.least.Some? && s.producer.least.value <= s.consumers[c].tail)
  }

  // What is copied is the event at the cursor, unless a non-gating consumer has been lapped meanwhile.
  ghost predicate CopyOk(k: Setup, x: Consumer, s: State) {
    && (x.phase.Copying? && (x.gating || s.head < x.tail + k.capacity) && 0 <= x.tail < |s.log| ==> x.phase.copied <= s.log[x.tail])
    && (x.phase.Holding? && 0 <= x.tail < |s.log| ==> x.phase.value == s.log[x.tail])
  }

  // The history accounts for every position up to the cursor: read, or skipped across a reported lap.
  ghost predicate Accounts(k: Setup, seen: seq<Seen>, log: seq<Event>, cursor: int) {
    if seen == [] then cursor == 0
    else
      var most, last := seen[..|seen| - 1], seen[|seen| - 1];
      match last
      case Got(at, e) => 0 <= at < |log| && e == log[at] && cursor == at + 1 && Accounts(k, most, log, at)
      case Lapped(from, to) => to >= from + k.capacity && cursor == to && Accounts(k, most, log, from)
  }

  // A gating consumer has read every event exactly once and in order.
  ghost predicate ReadAll(seen: seq<Seen>, cursor: int, log: seq<Event>) {
    |seen| == cursor <= |log| && forall i :: 0 <= i < |seen| ==> seen[i] == Got(i, log[i])
  }

  ghost predicate ConsumerOk(k: Setup, x: Consumer, s: State) {
    && 0 <= x.tail <= x.cachedHead <= s.head
    && (!x.phase.Rest? ==> x.tail < x.cachedHead)
    && (x.gating ==> s.head <= x.tail + k.capacity && !x.phase.Looked? && ReadAll(x.seen, x.tail, s.log))
    && CopyOk(k, x, s)
    && Accounts(k, x.seen, s.log, x.tail)
  }

  ghost predicate Inv(k: Setup, s: State) {
    && Shaped(k, s) && SlotsOk(k, s) && GateOk(k, s)
    && forall c :: 0 <= c < |s.consumers| ==> ConsumerOk(k, s.consumers[c], s)
  }

  // Positions less than a lap apart are different slots.
  lemma SlotsApart(k: Setup, p: int, q: int)
    requires k.capacity > 0 && 0 < q - p < k.capacity
    ensures SlotOf(k, p) != SlotOf(k, q)
  {
    var n := k.capacity;
    var d := q / n - p / n;
    assert q - p == d * n + (q % n - p % n);
    assert d <= 0 ==> d * n <= 0;
    assert d >= 1 ==> d * n >= n;
  }

  lemma {:induction false} AccountsGrow(k: Setup, seen: seq<Seen>, log: seq<Event>, cursor: int, e: Event)
    requires Accounts(k, seen, log, cursor)
    ensures Accounts(k, seen, log + [e], cursor)
    decreases |seen|
  {
    if seen != [] {
      var most, last := seen[..|seen| - 1], seen[|seen| - 1];
      match last
      case Got(at, _) => AccountsGrow(k, most, log, at, e);
      case Lapped(from, _) => AccountsGrow(k, most, log, from, e);
    }
  }

  lemma AccountsSnoc(k: Setup, seen: seq<Seen>, log: seq<Event>, cursor: int, last: Seen)
    requires Accounts(k, seen, log, cursor)
    requires match last
      case Got(at, e) => at == cursor && 0 <= at < |log| && e == log[at]
      case Lapped(from, to) => from == cursor && to >= from + k.capacity
    ensures Accounts(k, seen + [last], log, match last case Got(at, _) => at + 1 case Lapped(_, to) => to)
  {
    assert (seen + [last])[..|seen|] == seen;
  }

  // ---------------------------------------------------------------------------------------------
  // Every step keeps the invariant
  // ---------------------------------------------------------------------------------------------

  lemma ClaimKeeps(k: Setup, s: State, step: Step)
    requires Inv(k, s) && Enabled(k, s, step) && (step.Claim? || step.Scan?)
    ensures Inv(k, Do(k, s, step))
  {
    hide ReadAll, Accounts;
    var s' := Do(k, s, step);
    forall c | 0 <= c < |s.consumers| ensures ConsumerOk(k, s'.consumers[c], s') {
      assert ConsumerOk(k, s.consumers[c], s);
    }
  }

  lemma WriteKeeps(k: Setup, s: State)
    requires Inv(k, s) && Enabled(k, s, WriteWord)
    ensures Inv(k, Do(k, s, WriteWord))
  {
    hide ReadAll, Accounts;
    var s' := Do(k, s, WriteWord);
    var i, j := SlotOf(k, s.head), s.producer.done;
    forall p | Intact(k, s', p) ensures s'.slots[SlotOf(k, p)] == s.log[p] {
      SlotsApart(k, p, s.head);
    }
    assert s'.slots[i][..j + 1] == s.slots[i][..j] + [s.producer.event[j]];
    forall c | 0 <= c < |s.consumers| ensures ConsumerOk(k, s'.consumers[c], s') {
      assert ConsumerOk(k, s.consumers[c], s);
    }
  }

  lemma PublishSlots(k: Setup, s: State)
    requires Inv(k, s) && Enabled(k, s, Publish)
    ensures SlotsOk(k, Do(k, s, Publish))
  {
    hide ConsumerOk;
    var s', e := Do(k, s, Publish), s.producer.event;
    assert s.slots[SlotOf(k, s.head)] == e by {
      assert e[..k.words] == e && s.slots[SlotOf(k, s.head)][..k.words] == s.slots[SlotOf(k, s.head)];
    }
  }

  lemma PublishConsumer(k: Setup, s: State, x: Consumer)
    requires Shaped(k, s) && GateOk(k, s) && Enabled(k, s, Publish) && ConsumerOk(k, x, s)
    requires x.gating ==> s.cachedMinTail <= x.tail
    ensures ConsumerOk(k, x, Do(k, s, Publish))
  {
    hide Accounts;
    AccountsGrow(k, x.seen, s.log, x.tail, s.producer.event);
  }

  lemma PublishKeeps(k: Setup, s: State)
    requires Inv(k, s) && Enabled(k, s, Publish)
    ensures Inv(k, Do(k, s, Publish))
  {
    hide ConsumerOk, SlotsOk;
    PublishSlots(k, s);
    var s' := Do(k, s, Publish);
    forall c | 0 <= c < |s.consumers| ensures ConsumerOk(k, s'.consumers[c], s') {
      PublishConsumer(k, s, s.consumers[c]);
    }
  }

  // The slot at the cursor is whole whenever what is copied from it will count.
  lemma CursorIntact(k: Setup, s: State, c: nat)
    requires Inv(k, s) && c < |s.consumers| && !s.consumers[c].phase.Rest?
    requires s.consumers[c].gating || s.head < s.consumers[c].tail + k.capacity
    ensures var x := s.consumers[c]; 0 <= x.tail < |s.log| && s.slots[SlotOf(k, x.tail)] == s.log[x.tail]
  {
    hide Accounts, ReadAll;
    var x := s.consumers[c];
    assert ConsumerOk(k, x, s);
    assert Intact(k, s, x.tail);
  }

  lemma CopyConsumer(k: Setup, s: State, c: nat)
    requires Inv(k, s) && Enabled(k, s, CopyWord(c))
    ensures ConsumerOk(k, ConsumerDo(k, s, CopyWord(c)), s)
  {
    hide Accounts, ReadAll, SlotsOk, GateOk;
    var x := s.consumers[c];
    assert ConsumerOk(k, x, s);
    if x.gating || s.head < x.tail + k.capacity {
      CursorIntact(k, s, c);
      var e, j := s.log[x.tail], |x.phase.copied|;
      assert e[..j + 1] == x.phase.copied + [e[j]];
    }
  }

  lemma MoveConsumer(k: Setup, s: State, step: Step)
    requires Inv(k, s) && Enabled(k, s, step) && (step.Peek? || step.Check? || step.Finish?)
    ensures ConsumerOk(k, ConsumerDo(k, s, step), s)
  {
    hide Accounts, SlotsOk, GateOk;
    var x := s.consumers[step.c];
    assert ConsumerOk(k, x, s);
    if s.head - x.tail >= k.capacity {
      AccountsSnoc(k, x.seen, s.log, x.tail, Lapped(x.tail, s.head));
    }
  }

  lemma ConsumeConsumer(k: Setup, s: State, c: nat)
    requires Inv(k, s) && Enabled(k, s, Consume(c))
    ensures ConsumerOk(k, ConsumerDo(k, s, Consume(c)), s)
  {
    hide Accounts, SlotsOk, GateOk;
    var x := s.consumers[c];
    assert ConsumerOk(k, x, s);
    AccountsSnoc(k, x.seen, s.log, x.tail, Got(x.tail, x.phase.value));
  }

  lemma ConsumerKeeps(k: Setup, s: State, step: Step)
    requires Inv(k, s) && Enabled(k, s, step) && !(step.Claim? || step.Scan? || step.WriteWord? || step.Publish?)
    requires ConsumerOk(k, ConsumerDo(k, s, step), s)
    ensures Inv(k, Do(k, s, step))
  {
    hide Accounts, ReadAll;
    var s' := Do(k, s, step);
    assert ConsumerOk(k, s.consumers[step.c], s);
    assert s.consumers[step.c].tail <= s'.consumers[step.c].tail && s.consumers[step.c].gating == s'.consumers[step.c].gating;
    forall c | 0 <= c < |s'.consumers| ensures ConsumerOk(k, s'.consumers[c], s') {
      if c != step.c {
        assert ConsumerOk(k, s.consumers[c], s);
      }
    }
  }

  lemma StepKeeps(k: Setup, s: State, step: Step)
    requires Inv(k, s) && Enabled(k, s, step)
    ensures Inv(k, Do(k, s, step))
  {
    hide Inv, Do, ConsumerOk, ConsumerDo;
    match step
    case Claim(_) => ClaimKeeps(k, s, step);
    case Scan => ClaimKeeps(k, s, step);
    case WriteWord => WriteKeeps(k, s);
    case Publish => PublishKeeps(k, s);
    case CopyWord(c) => CopyConsumer(k, s, c); ConsumerKeeps(k, s, step);
    case Consume(c) => ConsumeConsumer(k, s, c); ConsumerKeeps(k, s, step);
    case _ => MoveConsumer(k, s, step); ConsumerKeeps(k, s, step);
  }

  // ---------------------------------------------------------------------------------------------
  // Whole runs
  // ---------------------------------------------------------------------------------------------

  // One consumer per entry of the gating mask, every slot blank.
  function Init(k: Setup, mask: seq<bool>): State {
    State(seq(k.capacity, _ => seq(k.words, _ => 0)), 0, 0, Idle,
          seq(|mask|, i requires 0 <= i < |mask| => Consumer(mask[i], 0, 0, Rest, [])), [])
  }

  lemma InitInv(k: Setup, mask: seq<bool>)
    requires k.capacity > 0
    ensures Inv(k, Init(k, mask))
  {
  }

  // The state after an interleaving of the producer and all consumers.
  ghost function After(k: Setup, mask: seq<bool>, steps: seq<Step>): State {
    if steps == [] then Init(k, mask)
    else
      var last := |steps| - 1;
      var s := After(k, mask, steps[..last]);
      if Shaped(k, s) && Enabled(k, s, steps[last]) then Do(k, s, steps[last]) else s
  }

  lemma {:induction false} AfterInv(k: Setup, mask: seq<bool>, steps: seq<Step>)
    requires k.capacity > 0
    ensures Inv(k, After(k, mask, steps))
    ensures |After(k, mask, steps).consumers| == |mask|
    ensures forall c :: 0 <= c < |mask| ==> After(k, mask, steps).consumers[c].gating == mask[c]
  {
    hide Inv, Enabled, Shaped;
    if steps == [] {
      InitInv(k, mask);
    } else {
      var last := |steps| - 1;
      AfterInv(k, mask, steps[..last]);
      var s := After(k, mask, steps[..last]);
      if Shaped(k, s) && Enabled(k, s, steps[last]) {
        StepKeeps(k, s, steps[last]);
        SameMask(k, s, steps[last]);
      }
    }
  }

  lemma SameMask(k: Setup, s: State, step: Step)
    requires Shaped(k, s) && Enabled(k, s, step)
    ensures |Do(k, s, step).consumers| == |s.consumers|
    ensures forall c :: 0 <= c < |s.consumers| ==> Do(k, s, step).consumers[c].gating == s.consumers[c].gating
  {
  }

  /** A gating consumer has, at every point of every run, read exactly the first `tail` events, once each and in
      order, and no slot it has yet to read has been touched. */
  lemma GatingSeesAll(k: Setup, mask: seq<bool>, steps: seq<Step>, c: nat)
    requires k.capacity > 0 && c < |mask| && mask[c]
    ensures var s := After(k, mask, steps);
      && c < |s.consumers| && Shaped(k, s)
      && var x := s.consumers[c];
      && ReadAll(x.seen, x.tail, s.log) && 0 <= x.tail <= s.head <= x.tail + k.capacity
      && forall p {:trigger SlotOf(k, p)} :: x.tail <= p < s.head ==> s.slots[SlotOf(k, p)] == s.log[p]
  {
    hide Accounts, ReadAll, CopyOk, After;
    AfterInv(k, mask, steps);
    var s := After(k, mask, steps);
    var x := s.consumers[c];
    assert ConsumerOk(k, x, s);
    forall p | x.tail <= p < s.head ensures s.slots[SlotOf(k, p)] == s.log[p] {
      assert Intact(k, s, p);
    }
  }

  /** Whatever any consumer holds is exactly the event at its cursor, never a mixture, and its history accounts for
      every position: each was read, or lies in a gap it was told of. */
  lemma NeverTorn(k: Setup, mask: seq<bool>, steps: seq<Step>, c: nat)
    requires k.capacity > 0 && c < |mask|
    ensures var s := After(k, mask, steps);
      && c < |s.consumers|
      && var x := s.consumers[c];
      && 0 <= x.tail <= |s.log| && Accounts(k, x.seen, s.log, x.tail)
      && (x.phase.Holding? ==> x.tail < |s.log| && x.phase.value == s.log[x.tail])
  {
    hide Accounts, ReadAll, SlotsOk, GateOk, After;
    AfterInv(k, mask, steps);
    var s := After(k, mask, steps);
    assert ConsumerOk(k, s.consumers[c], s);
  }

  // Everything the producer works with is the same, and so are the gating consumers.
  ghost predicate SameToProducer(s: State, t: State) {
    && s.slots == t.slots && s.head == t.head && s.cachedMinTail == t.cachedMinTail && s.producer == t.producer && s.log == t.log
    && |s.consumers| == |t.consumers|
    && forall c :: 0 <= c < |s.consumers| ==>
         s.consumers[c].gating == t.consumers[c].gating && (s.consumers[c].gating ==> s.consumers[c] == t.consumers[c])
  }

  // A step of the producer or of a consumer it waits for.
  predicate Gated(mask: seq<bool>, step: Step) {
    match step
    case Claim(_) => true
    case Scan => true
    case WriteWord => true
    case Publish => true
    case _ => step.c < |mask| && mask[step.c]
  }

  // The same run without the non-gating consumers' steps.
  function OnlyGated(mask: seq<bool>, steps: seq<Step>): seq<Step> {
    if steps == [] then []
    else
      var last := |steps| - 1;
      OnlyGated(mask, steps[..last]) + if Gated(mask, steps[last]) then [steps[last]] else []
  }

  // Steps of the producer and of gating consumers are enabled and come out the same wherever the others stand.
  lemma GatedStep(k: Setup, s: State, t: State, step: Step)
    requires Shaped(k, s) && Shaped(k, t) && SameToProducer(s, t)
    requires Gated(seq(|s.consumers|, c requires 0 <= c < |s.consumers| => s.consumers[c].gating), step)
    ensures Enabled(k, s, step) <==> Enabled(k, t, step)
    ensures Enabled(k, s, step) ==> SameToProducer(Do(k, s, step), Do(k, t, step))
  {
  }

  // Steps of non-gating consumers change nothing the producer or a gating consumer works with.
  lemma UngatedStep(k: Setup, s: State, t: State, step: Step)
    requires Shaped(k, s) && SameToProducer(s, t) && Enabled(k, s, step)
    requires !Gated(seq(|s.consumers|, c requires 0 <= c < |s.consumers| => s.consumers[c].gating), step)
    ensures SameToProducer(Do(k, s, step), t)
  {
  }

  lemma ShapedAfter(k: Setup, mask: seq<bool>, steps: seq<Step>)
    requires k.capacity > 0
    ensures var s := After(k, mask, steps);
      Shaped(k, s) && mask == seq(|s.consumers|, c requires 0 <= c < |s.consumers| => s.consumers[c].gating)
  {
    hide After, SlotsOk, GateOk, ConsumerOk;
    AfterInv(k, mask, steps);
  }

  /** The producer never depends on a non-gating consumer: take those consumers' steps out of any run, and the slots,
      the published events, the producer and the gating consumers end up the same. */
  lemma {:induction false} ProducerBlind(k: Setup, mask: seq<bool>, steps: seq<Step>)
    requires k.capacity > 0
    ensures SameToProducer(After(k, mask, steps), After(k, mask, OnlyGated(mask, steps)))
  {
    hide Shaped, Enabled, Do, Gated, SameToProducer;
    if steps == [] {
      SameAsItself(After(k, mask, []));
    } else {
      var last := |steps| - 1;
      var most, step := steps[..last], steps[last];
      ProducerBlind(k, mask, most);
      var s, t := After(k, mask, most), After(k, mask, OnlyGated(mask, most));
      ShapedAfter(k, mask, most);
      ShapedAfter(k, mask, OnlyGated(mask, most));
      if Gated(mask, step) {
        GatedStep(k, s, t, step);
        var kept := OnlyGated(mask, most) + [step];
        assert kept[..|kept| - 1] == OnlyGated(mask, most);
      } else {
        assert OnlyGated(mask, most) + [] == OnlyGated(mask, most);
        if Enabled(k, s, step) {
          UngatedStep(k, s, t, step);
        }
      }
    }
  }

  lemma SameAsItself(s: State)
    ensures SameToProducer(s, s)
  {
  }

  // ---------------------------------------------------------------------------------------------
  // When a claim fails
  // ---------------------------------------------------------------------------------------------

  // After the first `j` steps the producer was about to read the cursor of gating consumer `c`, which was at `tail`,
  // with the head where it is now.
  ghost predicate ReadAt(k: Setup, mask: seq<bool>, steps: seq<Step>, j: int, c: int, tail: int, head: int) {
    && 0 <= j < |steps| && 0 <= c < |mask| && mask[c] && steps[j].Scan?
    && var s := After(k, mask, steps[..j]);
    && s.producer.Scanning? && s.producer.next == c < |s.consumers| && s.consumers[c].tail == tail && s.head == head
  }

  ghost predicate WasRead(k: Setup, mask: seq<bool>, steps: seq<Step>, tail: int, head: int) {
    exists j, c :: ReadAt(k, mask, steps, j, c, tail, head)
  }

  lemma ReadBefore(k: Setup, mask: seq<bool>, steps: seq<Step>, tail: int, head: int)
    requires steps != [] && WasRead(k, mask, steps[..|steps| - 1], tail, head)
    ensures WasRead(k, mask, steps, tail, head)
  {
    hide After;
    var most := steps[..|steps| - 1];
    var j, c :| ReadAt(k, mask, most, j, c, tail, head);
    assert most[..j] == steps[..j];
    assert ReadAt(k, mask, steps, j, c, tail, head);
  }

  // The minimum the producer has formed so far is the cursor of a gating consumer as it was when read.
  lemma {:induction false} LeastWasRead(k: Setup, mask: seq<bool>, steps: seq<Step>)
    requires k.capacity > 0
    ensures var s := After(k, mask, steps);
      s.producer.Scanning? && s.producer.least.Some? ==> WasRead(k, mask, steps, s.producer.least.value, s.head)
  {
    hide Shaped, WasRead;
    if steps != [] {
      var last := |steps| - 1;
      var most, step := steps[..last], steps[last];
      LeastWasRead(k, mask, most);
      AfterMask(k, mask, most);
      var s, s' := After(k, mask, most), After(k, mask, steps);
      if s'.producer.Scanning? && s'.producer.least.Some? {
        if s.producer.Scanning? && s'.producer.least == s.producer.least {
          ReadBefore(k, mask, steps, s.producer.least.value, s.head);
        } else {
          assert ReadAt(k, mask, steps, last, s.producer.next, s'.producer.least.value, s'.head);
          NowRead(k, mask, steps, last, s.producer.next, s'.producer.least.value, s'.head);
        }
      }
    }
  }

  lemma AfterMask(k: Setup, mask: seq<bool>, steps: seq<Step>)
    requires k.capacity > 0
    ensures var s := After(k, mask, steps);
      |s.consumers| == |mask| && forall c :: 0 <= c < |mask| ==> s.consumers[c].gating == mask[c]
  {
    hide After, Inv;
    AfterInv(k, mask, steps);
  }

  lemma NowRead(k: Setup, mask: seq<bool>, steps: seq<Step>, j: int, c: int, tail: int, head: int)
    requires ReadAt(k, mask, steps, j, c, tail, head)
    ensures WasRead(k, mask, steps, tail, head)
  {
  }

  // The producer has read every gating cursor and is about to decide.
  ghost predicate Deciding(s: State) {
    s.producer.Scanning? && s.producer.next >= |s.consumers|
  }

  /** A claim that had to look at the cursors fails only if some gating consumer was a full lap behind when its cursor
      was read, and does fail if one still is. With no gating consumer it always succeeds. */
  lemma ClaimFails(k: Setup, mask: seq<bool>, steps: seq<Step>)
    requires k.capacity > 0 && Deciding(After(k, mask, steps))
    ensures var s := After(k, mask, steps);
      && Shaped(k, s) && Enabled(k, s, Scan)
      && var s' := Do(k, s, Scan);
      && (s'.producer.Idle? || (s'.producer.Writing? && s'.producer.event == s.producer.event))
      && (s'.producer.Idle? ==> exists tail :: s.head - tail >= k.capacity && WasRead(k, mask, steps, tail, s.head))
      && ((exists c :: 0 <= c < |s.consumers| && s.consumers[c].gating && s.head - s.consumers[c].tail >= k.capacity) ==> s'.producer.Idle?)
      && ((forall c :: 0 <= c < |mask| ==> !mask[c]) ==> s'.producer.Writing?)
  {
    hide After, SlotsOk, ConsumerOk, WasRead;
    AfterInv(k, mask, steps);
    LeastWasRead(k, mask, steps);
    var s := After(k, mask, steps);
    if s.producer.least.Some? && forall c :: 0 <= c < |mask| ==> !mask[c] {
      NothingRead(k, mask, steps, s.producer.least.value, s.head);
    }
  }

  lemma NothingRead(k: Setup, mask: seq<bool>, steps: seq<Step>, tail: int, head: int)
    requires forall c :: 0 <= c < |mask| ==> !mask[c]
    ensures !WasRead(k, mask, steps, tail, head)
  {
    hide After;
  }
}
