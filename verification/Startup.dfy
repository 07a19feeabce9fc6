/** From the journal directory to a running shard: read, decode, recover, and start the two threads. */
module Startup {
  import opened Types
  import opened Matcher
  import opened BookLaws
  import opened SlotMatcher
  import opened FairPrices
  import opened Sides
  import opened OrderBooks
  import opened JournalFormat
  import opened Journal
  import opened Readings
  import opened Payloads
  import opened Recovery
  import Mirrors
  import Pipeline

  // The commands reading a directory from the start yields.
  function Journaled(d: Disk): seq<Command>
    requires Readable(d)
  {
    CommandsOf(ReadAll(d, NewReader(d)).0)
  }

  lemma JournaledHeld(d: Disk, cs: seq<Command>)
    requires DiskOk(d) && HoldAll(Records(d), cs)
    ensures Readable(d) && Journaled(d) == cs
  {
    hide ReadAll, DiskOk, CommandsOf, HoldAll, Records;
    ReadsSound(d);
    CommandsHeld(Records(d), cs);
  }

  /** From disk to book: a sound directory whose records hold `cs`, with no snapshot or that of any prefix, recovers to
      the replay of `cs`, numbered like the journal. */
  lemma DiskIsReplay(cfg: Config, d: Disk, cs: seq<Command>, snap: Option<Snapshot>, k: nat)
    requires ValidConfig(cfg) && DiskOk(d) && HoldAll(Records(d), cs) && forall i :: 0 <= i < |cs| ==> GridCommand(cfg, cs[i])
    requires k <= |cs| && (snap.None? || snap == Some(SnapshotOf(Run(cfg, EmptyBook, cs[..k]), k)))
    ensures Readable(d) && RecoveredFrom(cfg, snap, Journaled(d)) == Some(Recovered(Run(cfg, EmptyBook, cs), Total(d)))
  {
    hide Run, RecoveredFrom, DiskOk, Records, Journaled, Total;
    JournaledHeld(d, cs);
    RecoveryIsReplay(cfg, cs, snap, k);
    RecordsNumbered(d);
    HeldLength(Records(d), cs);
  }

  lemma HeldLength(recs: seq<Record>, cs: seq<Command>)
    requires HoldAll(recs, cs)
    ensures |recs| == |cs|
  {
  }

  // How reading ended, as recovery reports it.
  function Ending(res: Result): RecoveryStatus {
    match res
    case Corrupt(_) => RecoveryStatus.Corrupt
    case TruncatedTail => TornTail
    case _ => CleanEnd
  }

  // Decode the records in order.
  method DecodeAll(recs: seq<Record>) returns (cs: seq<Command>)
    requires forall i :: 0 <= i < |recs| ==> |recs[i].payload| == PAYLOAD
    ensures cs == CommandsOf(recs)
  {
    hide CommandFrom, CommandsOf;
    cs := [];
    var i := 0;
    assert recs[0..] == recs && [] + CommandsOf(recs) == CommandsOf(recs);
    while i < |recs|
      invariant 0 <= i <= |recs| && CommandsOf(recs) == cs + CommandsOf(recs[i..])
    {
      DecodeStep(recs, i, cs);
      match CommandFrom(recs[i].kind, recs[i].payload) {
        case None =>
          return;
        case Some(c) =>
          cs := cs + [c];
      }
      i := i + 1;
    }
    NoneLeft(recs, cs);
  }

  lemma DecodeStep(recs: seq<Record>, i: nat, cs: seq<Command>)
    requires i < |recs| && |recs[i].payload| == PAYLOAD
    ensures cs + CommandsOf(recs[i..]) == match CommandFrom(recs[i].kind, recs[i].payload)
      case None => cs
      case Some(c) => cs + [c] + CommandsOf(recs[i + 1..])
  {
    hide CommandFrom;
    assert recs[i..][0] == recs[i] && recs[i..][1..] == recs[i + 1..];
  }

  lemma NoneLeft(recs: seq<Record>, cs: seq<Command>)
    ensures cs + CommandsOf(recs[|recs|..]) == cs
  {
    assert recs[|recs|..] == [];
  }

  // Every record read has a whole payload.
  lemma {:induction false} PayloadsRead(d: Disk, r: Reader)
    requires ReaderOk(d, r)
    ensures forall i :: 0 <= i < |ReadAll(d, r).0| ==> |ReadAll(d, r).0[i].payload| == PAYLOAD
    decreases r.known - r.next, if r.isOpen then r.fileSize - r.offset else 0
  {
    hide Next, Readable;
    NextAdvances(d, r);
    if Next(d, r).1.Delivered? {
      PayloadNext(d, r);
      PayloadsRead(d, Next(d, r).0);
    }
  }

  lemma {:induction false} PayloadNext(d: Disk, r: Reader)
    requires ReaderOk(d, r)
    ensures Next(d, r).1.Delivered? ==> |Next(d, r).1.record.payload| == PAYLOAD
    decreases r.known - r.next, r.isOpen
  {
    hide FileBytes, Opens, OpenNext, Readable;
    if r.isOpen {
      if Found(d, r).EndOfSegment? {
        PayloadNext(d, r.(isOpen := false));
      }
    } else if OpenNext(d, r).isOpen {
      OpenNextProgress(d, r);
      if Found(d, OpenNext(d, r)).EndOfSegment? {
        PayloadNext(d, OpenNext(d, r).(isOpen := false));
      }
    }
  }

  // Read and decode; the book is not touched.
  method ReadCommands(d: Disk, ghost book: OrderBook, ghost scratch: Buffer<Trade>) returns (cs: seq<Command>, ending: RecoveryStatus)
    requires Readable(d) && book.Valid() && book.Outside(scratch, null)
    ensures cs == Journaled(d) && ending == Ending(ReadAll(d, NewReader(d)).2)
    ensures book.Valid() && book.View() == old(book.View()) && book.Outside(scratch, null)
  {
    hide OrderBook.Sound, BookInv, OrdersOn, ReadAll, CommandsOf;
    var recs, res, reader := ReadJournal(d);
    PayloadsRead(d, NewReader(d));
    cs := DecodeAll(recs);
    ending := Ending(res);
  }

  // The directory is sound, its records hold these commands, all on the grid, and the snapshot covers `k` of them.
  ghost predicate Kept(cfg: Config, snap: Option<Snapshot>, d: Disk, cs: seq<Command>, k: nat) {
    && ValidConfig(cfg) && DiskOk(d) && HoldAll(Records(d), cs) && (forall i :: 0 <= i < |cs| ==> GridCommand(cfg, cs[i]))
    && k <= |cs| && (snap.None? || snap == Some(SnapshotOf(Run(cfg, EmptyBook, cs[..k]), k)))
  }

  lemma KeptRecovers(cfg: Config, snap: Option<Snapshot>, d: Disk, cs: seq<Command>, k: nat)
    requires Kept(cfg, snap, d, cs, k)
    ensures Readable(d) && GridInput(cfg, snap, Journaled(d))
    ensures RecoveredFrom(cfg, snap, Journaled(d)) == Some(Recovered(Run(cfg, EmptyBook, cs), |cs|))
    ensures ReadAll(d, NewReader(d)).2 == if IsTorn(d) then TruncatedTail else EndOfJournal
  {
    hide Run, RecoveredFrom, DiskOk, Records, Journaled, GridInput, HoldAll;
    JournaledHeld(d, cs);
    ReadsSound(d);
    GridGiven(cfg, snap, cs, k);
    RecoveryIsReplay(cfg, cs, snap, k);
  }

  /** `recover` over the directory itself, sound or not: the book is the snapshot's run over the commands that reading
      the directory yields, and the status says how reading ended, or that the snapshot could not be restored. On a
      sound directory whose records hold grid commands the book is the replay of those commands, whatever prefix the
      snapshot covers. */
  method RecoverDisk(book: OrderBook, snap: Option<Snapshot>, d: Disk, scratch: Buffer<Trade>, ghost cs: seq<Command>, ghost k: nat)
    returns (status: RecoveryStatus, lastSeq: nat)
    requires book.Valid() && book.View() == EmptyBook && book.Outside(scratch, null) && Readable(d)
    requires snap.Some? ==> forall i :: 0 <= i < |snap.value.orders| ==> InRange(book.cfg, snap.value.orders[i].price)
    modifies book.Repr(), scratch, scratch.data
    ensures book.cfg.tick > 0
    ensures var ended := ReadAll(d, NewReader(d)).2;
      match SlotRecoveredFrom(book.cfg, snap, Journaled(d))
      case None => status == RecoveryStatus.Corrupt
      case Some(r) =>
        && book.Sound(Buy, -1) && book.SlotView() == r.state && lastSeq == r.lastSeq
        && (status == RecoveryStatus.Corrupt <==> ended.Corrupt?) && (status == TornTail <==> ended == TruncatedTail)
    ensures Kept(book.cfg, snap, d, cs, k) ==>
      && status == (if IsTorn(d) then TornTail else CleanEnd)
      && book.Valid() && book.View() == Run(book.cfg, EmptyBook, cs) && lastSeq == |cs|
  {
    hide OrderBook.Valid, OrderBook.View, OrderBook.Body, OrderBook.Sound, OrderBook.SlotView, Run, ReadAll, DiskOk, Records,
      CommandsOf, HoldAll, RecoveredFrom, SlotRecoveredFrom, GridInput, Kept, Journaled;
    if Kept(book.cfg, snap, d, cs, k) {
      KeptRecovers(book.cfg, snap, d, cs, k);
    }
    var commands, ending := ReadCommands(d, book, scratch);
    status, lastSeq := Recover(book, snap, commands, ending, scratch);
  }

  lemma GridGiven(cfg: Config, snap: Option<Snapshot>, cs: seq<Command>, k: nat)
    requires ValidConfig(cfg) && forall i :: 0 <= i < |cs| ==> GridCommand(cfg, cs[i])
    requires k <= |cs| && (snap.None? || snap == Some(SnapshotOf(Run(cfg, EmptyBook, cs[..k]), k)))
    ensures GridInput(cfg, snap, cs)
  {
    hide Run, BookInv, Loaded, OnGridAll;
    if snap.Some? {
      var b := Run(cfg, EmptyBook, cs[..k]);
      Mirrors.StartsEqual(cfg);
      RunKeeps(cfg, EmptyBook, cs[..k]);
      SnapshotRoundTrip(cfg, b, k);
      WalkOnGrid(cfg, b);
    }
  }

  lemma WalkOnGrid(cfg: Config, b: Book)
    requires BookInv(cfg, b)
    ensures cfg.tick > 0 && OnGridAll(cfg, b.bids + b.asks)
  {
    hide OnGrid;
    var all := b.bids + b.asks;
    forall i | 0 <= i < |all| ensures InRange(cfg, all[i].price) && OnGrid(cfg, all[i].price) {
      if i < |b.bids| {
        assert OrderOk(cfg, Buy, b.lastArrival, b.bids[i]);
      } else {
        assert OrderOk(cfg, Sell, b.lastArrival, b.asks[i - |b.bids|]);
      }
    }
  }

  // ---------------------------------------------------------------------------------------------
  // Starting the threads
  // ---------------------------------------------------------------------------------------------

  // `recoverAndStart`: book and dispatch counter from recovery, the sequencer at the recovered number, an empty ring.
  function Started(k: Pipeline.Setup, r: Recovered): Pipeline.State
    requires k.capacity > 0
  {
    Pipeline.State(k.recovered, r.lastSeq, Pipeline.Idle, 0, seq(k.capacity, _ => Cancel(0)), 0, 0,
                   Pipeline.Polling, 0, r.book, r.lastSeq, [])
  }

  /** What recovery hands over lines up: starting from no snapshot, or from that of any prefix of the journal, the
      threads start in the state the write-ahead property starts from. */
  lemma StartsLinedUp(k: Pipeline.Setup, snap: Option<Snapshot>, n: nat)
    requires k.capacity > 0 && ValidConfig(k.cfg) && forall i :: 0 <= i < |k.recovered| ==> GridCommand(k.cfg, k.recovered[i])
    requires n <= |k.recovered| && (snap.None? || snap == Some(SnapshotOf(Run(k.cfg, EmptyBook, k.recovered[..n]), n)))
    ensures RecoveredFrom(k.cfg, snap, k.recovered).Some?
    ensures var s := Started(k, RecoveredFrom(k.cfg, snap, k.recovered).value); s == Pipeline.Init(k) && Pipeline.Inv(k, s)
  {
    hide Run, RecoveredFrom, Pipeline.Inv;
    RecoveryIsReplay(k.cfg, k.recovered, snap, n);
    Pipeline.InitInv(k);
  }

  /** After a snapshot made on request they do if and only if the request had not run ahead of the journal. */
  lemma StartsLinedUpIff(k: Pipeline.Setup, target: nat)
    requires k.capacity > 0 && ValidConfig(k.cfg) && forall i :: 0 <= i < |k.recovered| ==> GridCommand(k.cfg, k.recovered[i])
    ensures var r := RecoveredFrom(k.cfg, Some(SyncSnapshot(k.cfg, k.recovered, target)), k.recovered);
      r.Some? && (Started(k, r.value) == Pipeline.Init(k) <==> target <= |k.recovered|)
  {
    hide Run, SyncSnapshot;
    SyncExactIff(k.cfg, k.recovered, target);
    SyncRestores(k.cfg, k.recovered, target);
  }
}
