/** From the commands to the subscriber's screen, and from a book to a resynchronised mirror. */
module Feed {
  import opened Types
  import opened Matcher
  import opened BookLaws
  import opened Events
  import opened Reports
  import opened Capacity
  import opened Mirrors
  import opened BookMirrors
  import opened Ladders
  import opened Streams
  import opened Publishers
  import opened Recovery

  // The trades of a run, in order.
  function TradesOfRun(cfg: Config, cs: seq<Command>): seq<Trade> {
    if cs == [] then []
    else
      var last := |cs| - 1;
      TradesOfRun(cfg, cs[..last]) + Step(cfg, Run(cfg, EmptyBook, cs[..last]), cs[last]).trades
  }

  lemma StepTrades(cfg: Config, b: Book, c: Command, n: int, cap: nat)
    requires BookInv(cfg, b) && HasRoom(cfg, b, c, cap)
    ensures TradesIn(EventsOf(cfg, b, c, n, cap)) == Step(cfg, b, c).trades
  {
    hide BookInv, Submit, CancelOrder, ReplaceOrder, TradesIn, StatusesIn, UpdatesIn, EventsOf, HasRoom;
    FitsIff(cfg, b, c, cap);
    match c
    case New(o) => NewReports(cfg, b, o, n, cap);
    case Cancel(id) => CancelReports(cfg, b, id, n, cap); CancelTrades(b, id);
    case Replace(oldId, amended) => ReplaceReports(cfg, b, oldId, amended, n, cap);
  }

  lemma CancelTrades(b: Book, id: int)
    ensures CancelOrder(b, id).trades == []
  {
  }

  /** The trade events of a run are its trades. */
  lemma {:induction false} RunTrades(cfg: Config, cs: seq<Command>, n: int, cap: nat)
    requires ValidConfig(cfg) && RunHasRoom(cfg, cs, cap) && forall i :: 0 <= i < |cs| ==> GridCommand(cfg, cs[i])
    ensures TradesIn(EventsOfRun(cfg, EmptyBook, cs, n, cap)) == TradesOfRun(cfg, cs)
    decreases |cs|
  {
    hide Run, Step, EventsOf, HasRoom, BookInv, TradesIn;
    if cs == [] {
      NoTrades(cfg, n, cap);
    } else {
      var last := |cs| - 1;
      var most := cs[..last];
      RoomBefore(cfg, cs, cap, last);
      RunTrades(cfg, most, n, cap);
      EmptyInv(cfg);
      RunKeeps(cfg, EmptyBook, most);
      var b := Run(cfg, EmptyBook, most);
      StepTrades(cfg, b, cs[last], n + last, cap);
      InConcat(EventsOfRun(cfg, EmptyBook, most, n, cap), EventsOf(cfg, b, cs[last], n + last, cap));
    }
  }

  lemma NoTrades(cfg: Config, n: int, cap: nat)
    ensures TradesIn(EventsOfRun(cfg, EmptyBook, [], n, cap)) == []
  {
  }

  /** Whatever commands are dispatched, as long as they find room in the buffers, a publisher that pumps the events they
      publish ends up with the book in its mirror, a subscriber that takes everything it sends shows that book's depth,
      and the trades it was sent are those of the run. */
  method FollowRun(cfg: Config, cs: seq<Command>, n: int, cap: nat) returns (pub: Publisher, ladder: Ladder)
    requires ValidConfig(cfg) && RunHasRoom(cfg, cs, cap) && forall i :: 0 <= i < |cs| ==> GridCommand(cfg, cs[i])
    ensures pub.Valid() && Agrees(pub.mirror.view, Run(cfg, EmptyBook, cs)) && Shows(ladder.Shown(), pub.mirror.view)
    ensures TicksIn(pub.sent) == TradesOfRun(cfg, cs)
  {
    hide Agrees, Run, EventsOfRun, RunHasRoom, Shows, FoldAll, TicksIn, TradesIn, UpdatesIn, TradesOfRun;
    RunTrades(cfg, cs, n, cap);
    RunWellFormed(cfg, cs, n, cap);
    MirrorOfRun(cfg, cs, n, cap);
    pub := new Publisher();
    pub.Pump(EventsOfRun(cfg, EmptyBook, cs, n, cap));
    assert pub.sent[0..] == pub.sent;
    ladder := new Ladder();
    ladder.OnFeed(pub.sent);
  }

  lemma {:induction false} LoadedPrefix(cfg: Config, b: Book, k: nat)
    requires BookInv(cfg, b) && k <= |b.bids| + |b.asks|
    ensures Tracks(LoadedMirror((b.bids + b.asks)[..k]), Prefix(b, k))
  {
    hide BookInv, Tracks, Insert, IsResting;
    var all := b.bids + b.asks;
    if k == 0 {
      EmptyTracks(b);
    } else {
      LoadedPrefix(cfg, b, k - 1);
      assert all[..k][..k - 1] == all[..k - 1] && all[..k][k - 1] == all[k - 1];
      PrefixFresh(cfg, b, k - 1);
      PrefixGrows(cfg, b, k - 1);
      RestTracks(LoadedMirror(all[..k - 1]), Prefix(b, k - 1), all[k - 1]);
    }
  }

  lemma EmptyTracks(b: Book)
    ensures Tracks(LoadedMirror([]), Prefix(b, 0))
  {
  }

  lemma RestTracks(m: Mirror, b: Book, x: Order)
    requires Tracks(m, b) && !IsResting(b, x.id)
    ensures Tracks(Apply(m, OrderUpdate(Rested, x, Ok, 0)), WithSide(b, x.side, Insert(SideOf(b, x.side), x)))
  {
    hide Find, Insert, Tracks;
    AddTracks(m, b, x);
    var b' := WithSide(b, x.side, Insert(SideOf(b, x.side), x));
    SameLists(Added(m, x), b', b');
    assert Apply(m, OrderUpdate(Rested, x, Ok, 0))
        == Added(m, x).(lastSeq := if x.arrival > m.lastSeq then x.arrival else m.lastSeq);
  }

  /** Loading a mirror from a book's canonical walk and its counters gives the mirror of that book. */
  lemma LoadedIsBook(cfg: Config, b: Book)
    requires BookInv(cfg, b)
    ensures Agrees(LoadedMirror(b.bids + b.asks).(lastSeq := b.lastArrival, tradeCount := b.nextTradeId), b)
  {
    hide BookInv, LoadedMirror, Find, DistinctIds, DisjointIds;
    var all := b.bids + b.asks;
    LoadedPrefix(cfg, b, |all|);
    assert all[..|all|] == all && b.asks[..|b.asks|] == b.asks && b.bids[..|b.bids|] == b.bids;
    forall id ensures Entry(LoadedMirror(all).index, id) == WhereIs(b, id) {
      assert Entry(LoadedMirror(all).index, id) == WhereIs(Prefix(b, |all|), id);
    }
  }
}
