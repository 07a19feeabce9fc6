/** Sequencer and matching thread get on: what each of them gets done by its own steps, from every state a run can
    reach. */
module Progress {
  import opened Types
  import opened Matcher
  import opened Events
  import opened Mirrors
  import opened Pipeline

  // ---------------------------------------------------------------------------------------------
  // Going on from a state
  // ---------------------------------------------------------------------------------------------

  function Try(k: Setup, s: State, step: Pipeline.Step): (s': State)
    requires k.capacity > 0 && |s.slots| == k.capacity
    ensures |s'.slots| == k.capacity
  {
    if Enabled(k, s, step) then Do(k, s, step) else s
  }

  function On(k: Setup, s: State, steps: seq<Pipeline.Step>): (s': State)
    requires k.capacity > 0 && |s.slots| == k.capacity
    ensures |s'.slots| == k.capacity
  {
    if steps == [] then s else Try(k, On(k, s, steps[..|steps| - 1]), steps[|steps| - 1])
  }

  lemma {:induction false} AfterOn(k: Setup, steps: seq<Pipeline.Step>, more: seq<Pipeline.Step>)
    requires k.capacity > 0
    ensures After(k, steps + more) == On(k, After(k, steps), more)
    decreases |more|
  {
    hide Do, Enabled;
    if more == [] {
      assert steps + more == steps;
    } else {
      var last := |more| - 1;
      assert (steps + more)[..|steps + more| - 1] == steps + more[..last];
      AfterOn(k, steps, more[..last]);
    }
  }

  lemma {:induction false} OnSplit(k: Setup, s: State, a: seq<Pipeline.Step>, b: seq<Pipeline.Step>)
    requires k.capacity > 0 && |s.slots| == k.capacity
    ensures On(k, s, a + b) == On(k, On(k, s, a), b)
    decreases |b|
  {
    hide Try;
    if b == [] {
      assert a + b == a;
    } else {
      assert (a + b)[..|a + b| - 1] == a + b[..|b| - 1];
      OnSplit(k, s, a, b[..|b| - 1]);
    }
  }

  lemma TryKeeps(k: Setup, s: State, step: Pipeline.Step)
    requires Inv(k, s)
    ensures Inv(k, Try(k, s, step))
  {
    hide Run, EventsOfRun, Do, Enabled, Contents;
    if Enabled(k, s, step) {
      StepKeeps(k, s, step);
    }
  }

  lemma OnFour(k: Setup, s: State, a: Pipeline.Step, b: Pipeline.Step, c: Pipeline.Step, d: Pipeline.Step)
    requires k.capacity > 0 && |s.slots| == k.capacity
    ensures On(k, s, [a, b, c, d]) == Try(k, Try(k, Try(k, Try(k, s, a), b), c), d)
  {
    hide Try;
    assert [a][..0] == [] && [a, b][..1] == [a] && [a, b, c][..2] == [a, b] && [a, b, c, d][..3] == [a, b, c];
    assert On(k, s, [a]) == Try(k, s, a);
    assert On(k, s, [a, b]) == Try(k, Try(k, s, a), b);
    assert On(k, s, [a, b, c]) == Try(k, Try(k, Try(k, s, a), b), c);
  }

  // ---------------------------------------------------------------------------------------------
  // Looking into the ring
  // ---------------------------------------------------------------------------------------------

  /** A poll finds a command if and only if one is published and not yet consumed. */
  lemma PollFinds(k: Setup, steps: seq<Pipeline.Step>)
    requires k.capacity > 0 && After(k, steps).consumer.Polling?
    ensures var s := After(k, steps); After(k, steps + [Peek]).consumer == if s.tail < s.head then Peeked else Polling
  {
    hide After, Run, EventsOfRun, Contents;
    AfterInv(k, steps);
    AfterOn(k, steps, [Peek]);
    assert [Pipeline.Step.Peek][..0] == [];
  }

  /** A claim succeeds if and only if the ring is not full, however old the cached cursor is: `trySubmit` gives up, with
      nothing journaled, exactly on a full ring. */
  lemma ClaimFinds(k: Setup, steps: seq<Pipeline.Step>, c: Command)
    requires k.capacity > 0 && After(k, steps).producer.Idle?
    ensures var s, s' := After(k, steps), After(k, steps + [TrySubmit(c)]);
      s'.journal == s.journal && s'.producer == if s.head - s.tail < k.capacity then Reserved(c) else Idle
  {
    hide After, Run, EventsOfRun, Contents;
    AfterInv(k, steps);
    AfterOn(k, steps, [TrySubmit(c)]);
    assert [TrySubmit(c)][..0] == [];
  }

  // ---------------------------------------------------------------------------------------------
  // The matching thread
  // ---------------------------------------------------------------------------------------------

  // One turn of the matching thread's loop.
  const Turn := [Peek, Load, Dispatch, Consume]

  // What the sequencer works on is as it was.
  ghost predicate SameProducer(s: State, s': State) {
    s'.journal == s.journal && s'.lastSeq == s.lastSeq && s'.producer == s.producer && s'.head == s.head && s'.slots == s.slots
  }

  lemma TurnTakes(k: Setup, s: State)
    requires Inv(k, s)
    ensures var s' := On(k, s, Turn);
      && Inv(k, s') && SameProducer(s, s')
      && (if s.tail < s.head then s'.tail == s.tail + 1 else s'.tail == s.tail) && s'.consumer.Polling?
  {
    hide Run, EventsOfRun, EventsOf, Matcher.Step, Contents, On;
    OnFour(k, s, Peek, Load, Dispatch, Consume);
    TryKeeps(k, s, Peek);
    TryKeeps(k, Try(k, s, Peek), Load);
    TryKeeps(k, Try(k, Try(k, s, Peek), Load), Dispatch);
    TryKeeps(k, Try(k, Try(k, Try(k, s, Peek), Load), Dispatch), Consume);
  }

  function Turns(n: nat): seq<Pipeline.Step> {
    if n == 0 then [] else Turns(n - 1) + Turn
  }

  lemma {:induction false} TurnsTake(k: Setup, s: State, n: nat)
    requires Inv(k, s)
    ensures var s' := On(k, s, Turns(n));
      && Inv(k, s') && SameProducer(s, s') && s'.tail == (if s.tail + n < s.head then s.tail + n else s.head)
      && (n > 0 ==> s'.consumer.Polling?)
    decreases n
  {
    hide Run, EventsOfRun, Contents, On;
    if n == 0 {
      NoSteps(k, s);
    } else {
      TurnsTake(k, s, n - 1);
      OnSplit(k, s, Turns(n - 1), Turn);
      TurnTakes(k, On(k, s, Turns(n - 1)));
    }
  }

  lemma NoSteps(k: Setup, s: State)
    requires k.capacity > 0 && |s.slots| == k.capacity
    ensures On(k, s, []) == s
  {
  }

  /** As many turns as there are commands in the ring, and one at least, and from every state of every run the matching
      thread has dispatched every published command: the book is the replay of the journal up to there, and everything
      that replay publishes has gone out. */
  lemma Drains(k: Setup, steps: seq<Pipeline.Step>, n: nat)
    requires k.capacity > 0 && n >= 1 && n >= After(k, steps).head - After(k, steps).tail
    ensures var s, s' := After(k, steps), After(k, steps + Turns(n));
      var published := |k.recovered| + s.head;
      && SameProducer(s, s') && s'.tail == s'.head && |k.recovered| <= s'.dispatchSeq == published <= |s.journal|
      && s'.book == Run(k.cfg, EmptyBook, s.journal[..published])
      && s'.out == EventsOfRun(k.cfg, Run(k.cfg, EmptyBook, k.recovered), s.journal[|k.recovered|..published], |k.recovered| + 1, k.buffers)
  {
    hide After, Run, EventsOfRun, Contents, On, Turns;
    AfterInv(k, steps);
    AfterOn(k, steps, Turns(n));
    TurnsTake(k, After(k, steps), n);
  }

  // ---------------------------------------------------------------------------------------------
  // The sequencer
  // ---------------------------------------------------------------------------------------------

  // The steps of one `submit` whose append succeeds and whose first push finds room.
  function Send(c: Command): seq<Pipeline.Step> {
    [Submit(c), Append, Claim] + [Write, Publish]
  }

  lemma SendPublishes(k: Setup, s: State, c: Command)
    requires Inv(k, s) && s.producer.Idle? && s.head - s.tail < k.capacity
    ensures var s' := On(k, s, Send(c));
      && Inv(k, s') && s'.producer.Idle? && s'.journal == s.journal + [c] && s'.head == s.head + 1 && s'.tail == s.tail
  {
    hide Run, EventsOfRun, EventsOf, Matcher.Step, Contents, On;
    OnFive(k, s, Submit(c), Append, Claim, Write, Publish);
    TryKeeps(k, s, Submit(c));
    var s1 := Try(k, s, Submit(c));
    TryKeeps(k, s1, Append);
    var s2 := Try(k, s1, Append);
    TryKeeps(k, s2, Claim);
    var s3 := Try(k, s2, Claim);
    TryKeeps(k, s3, Write);
    TryKeeps(k, Try(k, s3, Write), Publish);
  }

  lemma OnFive(k: Setup, s: State, a: Pipeline.Step, b: Pipeline.Step, c: Pipeline.Step, d: Pipeline.Step, e: Pipeline.Step)
    requires k.capacity > 0 && |s.slots| == k.capacity
    ensures On(k, s, [a, b, c] + [d, e]) == Try(k, Try(k, Try(k, Try(k, Try(k, s, a), b), c), d), e)
  {
    hide Try;
    var steps := [a, b, c] + [d, e];
    assert steps[..4] == [a, b, c, d];
    OnFour(k, s, a, b, c, d);
  }

  /** A submitted command is served: with room in the ring, the sequencer's own steps journal and publish it, and the
      matching thread's own turns then dispatch everything up to and including it. */
  lemma Serves(k: Setup, steps: seq<Pipeline.Step>, c: Command, n: nat)
    requires k.capacity > 0 && After(k, steps).producer.Idle?
    requires var s := After(k, steps); s.head - s.tail < k.capacity && n > s.head - s.tail
    ensures var s, s' := After(k, steps), After(k, steps + Send(c) + Turns(n));
      && s'.journal == s.journal + [c] && s'.dispatchSeq == |s'.journal|
      && s'.book == Run(k.cfg, EmptyBook, s.journal + [c])
  {
    hide After, Run, EventsOfRun, Contents, On, Turns;
    AfterInv(k, steps);
    var s := After(k, steps);
    AfterOn(k, steps, Send(c));
    SendPublishes(k, s, c);
    Drains(k, steps + Send(c), n);
    var s1 := After(k, steps + Send(c));
    assert s1.journal[..|s1.journal|] == s1.journal;
  }
}
