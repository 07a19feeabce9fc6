/** The multicast ring delivers: what each thread gets done by its own steps, from every state a run can reach. */
module Delivery {
  import opened Types
  import opened Multicast

  // ---------------------------------------------------------------------------------------------
  // Going on from a state
  // ---------------------------------------------------------------------------------------------

  // A step a thread is not ready for does not happen.
  ghost function Try(k: Setup, s: State, step: Step): State {
    if Shaped(k, s) && Enabled(k, s, step) then Do(k, s, step) else s
  }

  ghost function On(k: Setup, s: State, steps: seq<Step>): State {
    if steps == [] then s else Try(k, On(k, s, steps[..|steps| - 1]), steps[|steps| - 1])
  }

  lemma {:induction false} AfterOn(k: Setup, mask: seq<bool>, steps: seq<Step>, more: seq<Step>)
    ensures After(k, mask, steps + more) == On(k, After(k, mask, steps), more)
    decreases |more|
  {
    hide Do, Enabled, Shaped;
    if more == [] {
      assert steps + more == steps;
    } else {
      var last := |more| - 1;
      assert (steps + more)[..|steps + more| - 1] == steps + more[..last];
      AfterOn(k, mask, steps, more[..last]);
    }
  }

  lemma {:induction false} OnSplit(k: Setup, s: State, a: seq<Step>, b: seq<Step>)
    ensures On(k, s, a + b) == On(k, On(k, s, a), b)
    decreases |b|
  {
    if b == [] {
      assert a + b == a;
    } else {
      assert (a + b)[..|a + b| - 1] == a + b[..|b| - 1];
      OnSplit(k, s, a, b[..|b| - 1]);
    }
  }

  lemma OnOne(k: Setup, s: State, step: Step)
    ensures On(k, s, [step]) == Try(k, s, step)
  {
    assert [step][..0] == [];
  }

  lemma {:induction false} OnKeeps(k: Setup, s: State, steps: seq<Step>)
    requires Inv(k, s)
    ensures Inv(k, On(k, s, steps))
  {
    hide Inv, Enabled, Shaped, Do;
    if steps != [] {
      var last := |steps| - 1;
      OnKeeps(k, s, steps[..last]);
      TryKeeps(k, On(k, s, steps[..last]), steps[last]);
    }
  }

  lemma TryKeeps(k: Setup, s: State, step: Step)
    requires Inv(k, s)
    ensures Inv(k, Try(k, s, step))
  {
    hide Inv, Do;
    if Shaped(k, s) && Enabled(k, s, step) {
      StepKeeps(k, s, step);
    }
  }

  // ---------------------------------------------------------------------------------------------
  // Looking
  // ---------------------------------------------------------------------------------------------

  /** A consumer that looks finds nothing if and only if it has caught up with the producer. */
  lemma PeekFinds(k: Setup, mask: seq<bool>, steps: seq<Step>, c: nat)
    requires k.capacity > 0 && c < |mask| && Enabled(k, After(k, mask, steps), Peek(c))
    ensures c < |After(k, mask, steps + [Peek(c)]).consumers|
    ensures var s := After(k, mask, steps);
      var x, x' := s.consumers[c], After(k, mask, steps + [Peek(c)]).consumers[c];
      && (x'.phase.Rest? <==> x.tail == s.head)
      && (!x'.phase.Rest? ==> x'.phase == if mask[c] then Copying([]) else Looked)
      && x'.tail == x.tail && x'.seen == x.seen
  {
    hide After, SlotsOk, GateOk, Accounts, ReadAll;
    AfterInv(k, mask, steps);
    AfterOn(k, mask, steps, [Peek(c)]);
    OnOne(k, After(k, mask, steps), Peek(c));
    var s := After(k, mask, steps);
    assert ConsumerOk(k, s.consumers[c], s);
  }

  /** A consumer the producer does not wait for is told of a lap, before or after copying, if and only if the producer
      is a full lap ahead of it at that moment, and then goes on from the newest position. */
  lemma LapIff(k: Setup, mask: seq<bool>, steps: seq<Step>, c: nat, step: Step)
    requires k.capacity > 0 && c < |mask| && !mask[c] && (step == Check(c) || step == Finish(c))
    requires Enabled(k, After(k, mask, steps), step)
    ensures c < |After(k, mask, steps + [step]).consumers|
    ensures var s := After(k, mask, steps);
      var x, x' := s.consumers[c], After(k, mask, steps + [step]).consumers[c];
      if s.head - x.tail >= k.capacity then
        x'.phase.Rest? && x'.tail == s.head && x'.seen == x.seen + [Lapped(x.tail, s.head)]
      else
        && x'.tail == x.tail && x'.seen == x.seen && 0 <= x.tail < |s.log|
        && x'.phase == if step.Check? then Copying([]) else Holding(s.log[x.tail])
  {
    hide After, SlotsOk, GateOk, Accounts, ReadAll;
    AfterInv(k, mask, steps);
    AfterOn(k, mask, steps, [step]);
    OnOne(k, After(k, mask, steps), step);
    var s := After(k, mask, steps);
    assert ConsumerOk(k, s.consumers[c], s);
  }

  // ---------------------------------------------------------------------------------------------
  // Reading one event
  // ---------------------------------------------------------------------------------------------

  function Copies(c: nat, n: nat): (steps: seq<Step>)
    ensures |steps| == n
  {
    seq(n, _ => CopyWord(c))
  }

  // The steps of one call of a consumer and of its acknowledgement.
  function Turn(k: Setup, c: nat): seq<Step> {
    [Peek(c), Check(c)] + Copies(c, k.words) + [Finish(c), Consume(c)]
  }

  // Only consumer `c` moved.
  ghost predicate OnlyMoved(s: State, s': State, c: nat) {
    && c < |s.consumers| == |s'.consumers| && s' == s.(consumers := s'.consumers)
    && s'.consumers[c].gating == s.consumers[c].gating
    && forall d :: 0 <= d < |s.consumers| && d != c ==> s'.consumers[d] == s.consumers[d]
  }

  lemma MovedOn(s: State, s1: State, s2: State, c: nat)
    requires OnlyMoved(s, s1, c) && OnlyMoved(s1, s2, c)
    ensures OnlyMoved(s, s2, c)
  {
  }

  lemma NotMoved(s: State, c: nat)
    requires c < |s.consumers|
    ensures OnlyMoved(s, s, c)
  {
  }

  // Copying goes on to the last word.
  lemma {:induction false} CopyAll(k: Setup, s: State, c: nat, n: nat)
    requires Inv(k, s) && c < |s.consumers|
    ensures var s' := On(k, s, Copies(c, n));
      var x := s.consumers[c];
      && OnlyMoved(s, s', c)
      && (!x.phase.Copying? ==> s' == s)
      && (x.phase.Copying? ==>
            && s'.consumers[c] == x.(phase := s'.consumers[c].phase) && s'.consumers[c].phase.Copying?
            && |s'.consumers[c].phase.copied| == if |x.phase.copied| + n < k.words then |x.phase.copied| + n else k.words)
    decreases n
  {
    hide Inv, Try;
    if n == 0 {
      NotMoved(s, c);
    } else {
      CopyAll(k, s, c, n - 1);
      OnKeeps(k, s, Copies(c, n - 1));
      assert Copies(c, n)[..n - 1] == Copies(c, n - 1);
      var s1 := On(k, s, Copies(c, n - 1));
      CopyOne(k, s1, c);
      MovedOn(s, s1, Try(k, s1, CopyWord(c)), c);
    }
    AllCopied(k, s, c);
  }

  lemma CopyOne(k: Setup, s: State, c: nat)
    requires Inv(k, s) && c < |s.consumers|
    ensures var s', x := Try(k, s, CopyWord(c)), s.consumers[c];
      && OnlyMoved(s, s', c)
      && (!x.phase.Copying? ==> s' == s)
      && (x.phase.Copying? ==>
            && s'.consumers[c] == x.(phase := s'.consumers[c].phase) && s'.consumers[c].phase.Copying?
            && |s'.consumers[c].phase.copied| == if |x.phase.copied| < k.words then |x.phase.copied| + 1 else |x.phase.copied|)
  {
    hide SlotsOk, GateOk, ConsumerOk;
  }

  // What one turn does to the consumer.
  ghost predicate Turned(k: Setup, s: State, x: Consumer, x': Consumer) {
    if x.tail == s.head then x'.tail == x.tail && x'.seen == x.seen && x'.phase.Rest?
    else if !x.gating && !x.phase.Holding? && s.head - x.tail >= k.capacity then
      x'.tail == s.head && x'.seen == x.seen + [Lapped(x.tail, s.head)] && x'.phase.Rest?
    else
      && 0 <= x.tail < |s.log| && x'.tail == x.tail + 1 && x'.seen == x.seen + [Got(x.tail, s.log[x.tail])] && x'.phase.Rest?
  }

  // Looking and checking: afterwards the consumer is copying, holds a value, or rests with nothing to read or told of a lap.
  lemma LookStage(k: Setup, s: State, c: nat)
    requires Inv(k, s) && c < |s.consumers|
    ensures var s' := Try(k, Try(k, s, Peek(c)), Check(c));
      var x, x' := s.consumers[c], s'.consumers[c];
      && OnlyMoved(s, s', c) && !x'.phase.Looked?
      && (x'.phase.Rest? ==> Turned(k, s, x, x'))
      && (!x'.phase.Rest? ==> x'.tail == x.tail < s.head && x'.seen == x.seen && (x'.phase.Holding? <==> x.phase.Holding?))
  {
    hide SlotsOk, GateOk, Accounts, ReadAll;
    assert ConsumerOk(k, s.consumers[c], s);
    TryKeeps(k, s, Peek(c));
    var s1 := Try(k, s, Peek(c));
    assert ConsumerOk(k, s1.consumers[c], s1);
  }

  // Finishing and acknowledging.
  lemma AckStage(k: Setup, s: State, c: nat)
    requires Inv(k, s) && c < |s.consumers| && !s.consumers[c].phase.Looked?
    requires s.consumers[c].phase.Copying? ==> |s.consumers[c].phase.copied| == k.words
    ensures var s' := Try(k, Try(k, s, Finish(c)), Consume(c));
      var x, x' := s.consumers[c], s'.consumers[c];
      && OnlyMoved(s, s', c)
      && (x.phase.Rest? ==> s' == s)
      && (!x.phase.Rest? ==> x.tail < s.head && Turned(k, s, x, x'))
  {
    hide SlotsOk, GateOk, Accounts, ReadAll;
    assert ConsumerOk(k, s.consumers[c], s);
    TryKeeps(k, s, Finish(c));
    var s1 := Try(k, s, Finish(c));
    assert ConsumerOk(k, s1.consumers[c], s1);
  }

  lemma TurnParts(k: Setup, s: State, c: nat)
    ensures var s1 := Try(k, Try(k, s, Peek(c)), Check(c));
      var s2 := On(k, s1, Copies(c, k.words));
      On(k, s, Turn(k, c)) == Try(k, Try(k, s2, Finish(c)), Consume(c))
  {
    hide Try;
    var look, ack := [Peek(c), Check(c)], [Finish(c), Consume(c)];
    OnSplit(k, s, look + Copies(c, k.words), ack);
    OnSplit(k, s, look, Copies(c, k.words));
    OnTwo(k, s, Peek(c), Check(c));
    OnTwo(k, On(k, s, look + Copies(c, k.words)), Finish(c), Consume(c));
  }

  lemma OnTwo(k: Setup, s: State, a: Step, b: Step)
    ensures On(k, s, [a, b]) == Try(k, Try(k, s, a), b)
  {
    hide Try;
    assert [a, b] == [a] + [b];
    OnSplit(k, s, [a], [b]);
    OnOne(k, s, a);
    OnOne(k, Try(k, s, a), b);
  }

  lemma TurnReads(k: Setup, s: State, c: nat)
    requires Inv(k, s) && c < |s.consumers|
    ensures var s' := On(k, s, Turn(k, c)); OnlyMoved(s, s', c) && Turned(k, s, s.consumers[c], s'.consumers[c]) && Inv(k, s')
  {
    hide Inv, Try, On, Do, Enabled, Shaped;
    TurnParts(k, s, c);
    LookStage(k, s, c);
    TryKeeps(k, s, Peek(c));
    TryKeeps(k, Try(k, s, Peek(c)), Check(c));
    var s1 := Try(k, Try(k, s, Peek(c)), Check(c));
    CopyAll(k, s1, c, k.words);
    OnKeeps(k, s1, Copies(c, k.words));
    var s2 := On(k, s1, Copies(c, k.words));
    AllCopied(k, s1, c);
    assert s2.consumers[c].phase.Copying? ==> |s2.consumers[c].phase.copied| == k.words;
    AckStage(k, s2, c);
    OnKeeps(k, s, Turn(k, c));
    MovedOn(s, s1, s2, c);
    MovedOn(s, s2, On(k, s, Turn(k, c)), c);
  }

  lemma AllCopied(k: Setup, s: State, c: nat)
    requires Inv(k, s) && c < |s.consumers|
    ensures s.consumers[c].phase.Copying? ==> |s.consumers[c].phase.copied| <= k.words
  {
  }

  // ---------------------------------------------------------------------------------------------
  // Reading everything
  // ---------------------------------------------------------------------------------------------

  function Turns(k: Setup, c: nat, n: nat): seq<Step> {
    if n == 0 then [] else Turns(k, c, n - 1) + Turn(k, c)
  }

  /** From every state of every run, whatever the consumer was in the middle of, its own steps of one call and
      acknowledgement hand it exactly the event at its cursor, if there is one and it has not been lapped; a lapped
      consumer is told so instead. */
  lemma TurnDelivers(k: Setup, mask: seq<bool>, steps: seq<Step>, c: nat)
    requires k.capacity > 0 && c < |mask|
    ensures var s, s' := After(k, mask, steps), After(k, mask, steps + Turn(k, c));
      && OnlyMoved(s, s', c)
      && var x, x' := s.consumers[c], s'.consumers[c];
      && (x.tail == s.head ==> x'.tail == x.tail && x'.seen == x.seen)
      && (x.tail < s.head && mask[c] ==> x'.tail == x.tail + 1 && 0 <= x.tail < |s.log| && x'.seen == x.seen + [Got(x.tail, s.log[x.tail])])
      && (x.tail < s.head && !mask[c] && !x.phase.Holding? ==>
            if s.head - x.tail >= k.capacity then x'.tail == s.head && x'.seen == x.seen + [Lapped(x.tail, s.head)]
            else x'.tail == x.tail + 1 && 0 <= x.tail < |s.log| && x'.seen == x.seen + [Got(x.tail, s.log[x.tail])])
      && x.tail <= s.head
  {
    hide After, Inv, On, Turn;
    AfterInv(k, mask, steps);
    AfterOn(k, mask, steps, Turn(k, c));
    TurnReads(k, After(k, mask, steps), c);
    TailWithin(k, After(k, mask, steps), c);
  }

  lemma TailWithin(k: Setup, s: State, c: nat)
    requires Inv(k, s) && c < |s.consumers|
    ensures 0 <= s.consumers[c].tail <= s.head == |s.log|
  {
    hide SlotsOk, GateOk, Accounts, ReadAll, CopyOk;
    assert ConsumerOk(k, s.consumers[c], s);
  }

  lemma {:induction false} TurnsRead(k: Setup, s: State, c: nat, n: nat)
    requires Inv(k, s) && c < |s.consumers| && s.consumers[c].gating
    ensures var s' := On(k, s, Turns(k, c, n));
      && OnlyMoved(s, s', c) && Inv(k, s')
      && s'.consumers[c].tail == if s.consumers[c].tail + n < s.head then s.consumers[c].tail + n else s.head
    decreases n
  {
    hide Inv, On, Turn;
    TailWithin(k, s, c);
    if n == 0 {
      OnNothing(k, s);
      NotMoved(s, c);
    } else {
      TurnsRead(k, s, c, n - 1);
      OnSplit(k, s, Turns(k, c, n - 1), Turn(k, c));
      var s1 := On(k, s, Turns(k, c, n - 1));
      TurnReads(k, s1, c);
      MovedOn(s, s1, On(k, s1, Turn(k, c)), c);
    }
  }

  lemma OnNothing(k: Setup, s: State)
    ensures On(k, s, []) == s
  {
  }

  /** As many calls as it is events behind, and a gating consumer has seen the whole log, every event once and in
      order, from every state of every run. */
  lemma CatchesUp(k: Setup, mask: seq<bool>, steps: seq<Step>, c: nat, n: nat)
    requires k.capacity > 0 && c < |mask| && mask[c]
    requires var s := After(k, mask, steps); c < |s.consumers| && n >= s.head - s.consumers[c].tail
    ensures var s, s' := After(k, mask, steps), After(k, mask, steps + Turns(k, c, n));
      && OnlyMoved(s, s', c) && s'.consumers[c].tail == s.head == |s.log|
      && s'.consumers[c].seen == seq(|s.log|, i requires 0 <= i < |s.log| => Got(i, s.log[i]))
  {
    hide After, Inv, On, Turns;
    AfterInv(k, mask, steps);
    AfterOn(k, mask, steps, Turns(k, c, n));
    var s := After(k, mask, steps);
    TurnsRead(k, s, c, n);
    TailWithin(k, s, c);
    SeenAll(k, On(k, s, Turns(k, c, n)), c);
  }

  lemma SeenAll(k: Setup, s: State, c: nat)
    requires Inv(k, s) && c < |s.consumers| && s.consumers[c].gating && s.consumers[c].tail == s.head
    ensures s.consumers[c].seen == seq(|s.log|, i requires 0 <= i < |s.log| => Got(i, s.log[i]))
  {
    hide SlotsOk, GateOk, Accounts, CopyOk;
    assert ConsumerOk(k, s.consumers[c], s);
  }

  // ---------------------------------------------------------------------------------------------
  // Publishing
  // ---------------------------------------------------------------------------------------------

  function Scans(n: nat): (steps: seq<Step>)
    ensures |steps| == n
  {
    seq(n, _ => Scan)
  }

  function Writes(n: nat): (steps: seq<Step>)
    ensures |steps| == n
  {
    seq(n, _ => WriteWord)
  }

  // The producer's steps for one event.
  function Offer(k: Setup, consumers: nat, e: Event): seq<Step> {
    [Claim(e)] + Scans(consumers + 1) + Writes(k.words) + [Publish]
  }

  // Some consumer the producer waits for is a full lap behind.
  ghost predicate Full(k: Setup, s: State) {
    exists c :: 0 <= c < |s.consumers| && s.consumers[c].gating && s.head - s.consumers[c].tail >= k.capacity
  }

  // What the scan has found so far are cursors as they stand.
  ghost predicate Formed(s: State) {
    s.producer.Scanning? ==>
      if s.producer.least.None? then forall c :: 0 <= c < s.producer.next && c < |s.consumers| ==> !s.consumers[c].gating
      else exists c :: 0 <= c < |s.consumers| && s.consumers[c].gating && s.consumers[c].tail == s.producer.least.value
  }

  // Slots, consumers, head and log are the same.
  ghost predicate SameRing(s: State, s': State) {
    s'.slots == s.slots && s'.consumers == s.consumers && s'.head == s.head && s'.log == s.log
  }

  // The claim once decided: refused if the ring is full, a slot to write otherwise.
  ghost predicate Decided(k: Setup, s: State, s': State, e: Event) {
    SameRing(s, s') && s'.producer == if Full(k, s) then Idle else Writing(e, 0)
  }

  lemma ScanStep(k: Setup, s: State, e: Event)
    requires Inv(k, s) && Formed(s) && s.producer.Scanning? && s.producer.event == e
    ensures var s' := Try(k, s, Scan);
      && SameRing(s, s') && Formed(s')
      && (if s.producer.next < |s.consumers| then s'.producer.Scanning? && s'.producer.event == e && s'.producer.next == s.producer.next + 1
          else Decided(k, s, s', e))
  {
    hide SlotsOk, ConsumerOk;
  }

  lemma {:induction false} ScanAll(k: Setup, s: State, e: Event, n: nat)
    requires Inv(k, s) && Formed(s) && s.producer.Scanning? && s.producer.event == e && s.producer.next <= |s.consumers|
    ensures var s' := On(k, s, Scans(n));
      && Inv(k, s') && SameRing(s, s') && Formed(s')
      && (if s.producer.next + n <= |s.consumers| then s'.producer.Scanning? && s'.producer.event == e && s'.producer.next == s.producer.next + n
          else Decided(k, s, s', e))
    decreases n
  {
    hide Inv, Try, Formed, Full;
    if n > 0 {
      ScanAll(k, s, e, n - 1);
      assert Scans(n)[..n - 1] == Scans(n - 1);
      var s1 := On(k, s, Scans(n - 1));
      TryKeeps(k, s1, Scan);
      if s1.producer.Scanning? {
        ScanStep(k, s1, e);
        SameFull(k, s, s1);
      } else {
        NoScan(k, s1);
      }
    }
  }

  lemma SameFull(k: Setup, s: State, s': State)
    requires SameRing(s, s')
    ensures Full(k, s) <==> Full(k, s')
  {
  }

  lemma NoScan(k: Setup, s: State)
    requires !s.producer.Scanning?
    ensures Try(k, s, Scan) == s
  {
  }

  lemma ClaimStage(k: Setup, s: State, e: Event)
    requires Inv(k, s) && s.producer.Idle? && |e| == k.words
    ensures var s' := On(k, Try(k, s, Claim(e)), Scans(|s.consumers| + 1)); Inv(k, s') && Decided(k, s, s', e)
  {
    hide SlotsOk, ConsumerOk, On;
    TryKeeps(k, s, Claim(e));
    var s1 := Try(k, s, Claim(e));
    if s1.producer.Scanning? {
      ScanAll(k, s1, e, |s.consumers| + 1);
      SameFull(k, s, s1);
    } else {
      NoScans(k, s1, |s.consumers| + 1);
    }
  }

  lemma {:induction false} NoScans(k: Setup, s: State, n: nat)
    requires !s.producer.Scanning?
    ensures On(k, s, Scans(n)) == s
  {
    hide Try;
    if n > 0 {
      assert Scans(n)[..n - 1] == Scans(n - 1);
      NoScans(k, s, n - 1);
      NoScan(k, s);
    }
  }

  lemma {:induction false} WriteAll(k: Setup, s: State, n: nat)
    requires Inv(k, s)
    ensures var s' := On(k, s, Writes(n));
      && Inv(k, s') && s'.consumers == s.consumers && s'.head == s.head && s'.log == s.log
      && (s.producer.Idle? ==> s' == s)
      && (s.producer.Writing? && s.producer.done + n <= k.words ==>
            s'.producer == s.producer.(done := s.producer.done + n))
    decreases n
  {
    hide SlotsOk, GateOk, ConsumerOk;
    if n > 0 {
      WriteAll(k, s, n - 1);
      assert Writes(n)[..n - 1] == Writes(n - 1);
      TryKeeps(k, On(k, s, Writes(n - 1)), WriteWord);
    }
  }

  /** Between two events, from every state of every run, the producer's own steps publish the next event if and only if
      every consumer it waits for is less than a lap behind; otherwise the ring stays as it was. */
  lemma OfferPublishes(k: Setup, mask: seq<bool>, steps: seq<Step>, e: Event)
    requires k.capacity > 0 && |e| == k.words && After(k, mask, steps).producer.Idle?
    ensures var s, s' := After(k, mask, steps), After(k, mask, steps + Offer(k, |mask|, e));
      && s'.producer.Idle? && s'.consumers == s.consumers
      && (if Full(k, s) then s'.log == s.log && s'.head == s.head && s'.slots == s.slots
          else s'.log == s.log + [e] && s'.head == s.head + 1)
  {
    hide After, Inv, On, Try, Full;
    AfterInv(k, mask, steps);
    AfterOn(k, mask, steps, Offer(k, |mask|, e));
    var s := After(k, mask, steps);
    OfferParts(k, s, |mask|, e);
    ClaimStage(k, s, e);
    var s1 := On(k, Try(k, s, Claim(e)), Scans(|mask| + 1));
    WriteAll(k, s1, k.words);
    PublishStage(k, On(k, s1, Writes(k.words)));
  }

  lemma OfferParts(k: Setup, s: State, n: nat, e: Event)
    ensures On(k, s, Offer(k, n, e)) == Try(k, On(k, On(k, Try(k, s, Claim(e)), Scans(n + 1)), Writes(k.words)), Publish)
  {
    hide Try;
    OnSplit(k, s, [Claim(e)] + Scans(n + 1) + Writes(k.words), [Publish]);
    OnSplit(k, s, [Claim(e)] + Scans(n + 1), Writes(k.words));
    OnSplit(k, s, [Claim(e)], Scans(n + 1));
    OnOne(k, s, Claim(e));
    OnOne(k, On(k, s, [Claim(e)] + Scans(n + 1) + Writes(k.words)), Publish);
  }

  lemma PublishStage(k: Setup, s: State)
    requires Inv(k, s)
    ensures s.producer.Idle? ==> Try(k, s, Publish) == s
    ensures s.producer.Writing? && s.producer.done == k.words ==>
      var s' := Try(k, s, Publish);
      s'.producer.Idle? && s'.consumers == s.consumers && s'.log == s.log + [s.producer.event] && s'.head == s.head + 1
  {
  }
}
