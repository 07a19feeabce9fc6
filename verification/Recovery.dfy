/** Snapshots, and recovery from a snapshot and the rest of the journal. */
module Recovery {
  import opened Types
  import opened Matcher
  import opened MatcherLaws
  import opened BookLaws
  import opened Verdicts
  import opened Events
  import opened Mirrors
  import opened Sides
  import opened SlotMatcher
  import opened FairPrices
  import opened OrderBooks

  // The orders of the canonical walk, the book's counters and the journal position they stand for.
  datatype Snapshot = Snapshot(globalSeq: nat, bookSeq: int, nextTradeId: int, orders: seq<Order>)

  function SnapshotOf(b: Book, globalSeq: nat): Snapshot {
    Snapshot(globalSeq, b.lastArrival, b.nextTradeId, b.bids + b.asks)
  }

  // ---------------------------------------------------------------------------------------------
  // Restoring orders
  // ---------------------------------------------------------------------------------------------

  function Restore(cfg: Config, b: Book, x: Order): Option<Book> {
    if Resting(b) < cfg.maxOrders && !IsResting(b, x.id)
    then Some(WithSide(b, x.side, Insert(SideOf(b, x.side), x)))
    else None
  }

  // Restoring stops at the first order that has no room or a taken id.
  function RestoreAll(cfg: Config, orders: seq<Order>): Option<Book> {
    if orders == [] then Some(EmptyBook)
    else
      match RestoreAll(cfg, orders[..|orders| - 1])
      case None => None
      case Some(b) => Restore(cfg, b, orders[|orders| - 1])
  }

  function Loaded(cfg: Config, s: Snapshot): Option<Book> {
    match RestoreAll(cfg, s.orders)
    case None => None
    case Some(b) => Some(b.(lastArrival := s.bookSeq, nextTradeId := s.nextTradeId))
  }

  // In a sorted list the next order goes to the end.
  lemma {:induction false} InsertLast(s: seq<Order>, x: Order)
    requires forall i :: 0 <= i < |s| ==> !Better(x.side, x.price, s[i].price)
    ensures Insert(s, x) == s + [x]
  {
    if s != [] {
      InsertLast(s[1..], x);
    }
  }

  // The first `k` orders of the walk, side by side.
  function Prefix(b: Book, k: nat): Book {
    if k <= |b.bids| then Book(b.bids[..k], [], 0, 0)
    else if k <= |b.bids| + |b.asks| then Book(b.bids, b.asks[..k - |b.bids|], 0, 0)
    else b
  }

  // The next order of the walk has an id of its own.
  lemma PrefixFresh(cfg: Config, b: Book, k: nat)
    requires BookInv(cfg, b) && k < |b.bids| + |b.asks|
    ensures !IsResting(Prefix(b, k), (b.bids + b.asks)[k].id)
  {
    hide Find, AllOk, Sorted, BookLaws.Apart;
    var p, x := Prefix(b, k), (b.bids + b.asks)[k];
    assert forall i :: 0 <= i < |p.bids| ==> p.bids[i] == b.bids[i];
    assert forall i :: 0 <= i < |p.asks| ==> p.asks[i] == b.asks[i];
    if k < |b.bids| {
      assert x == b.bids[k];
    } else {
      assert x == b.asks[k - |b.bids|];
    }
  }

  // It goes to the end of its side.
  lemma PrefixGrows(cfg: Config, b: Book, k: nat)
    requires BookInv(cfg, b) && k < |b.bids| + |b.asks|
    ensures var p, x := Prefix(b, k), (b.bids + b.asks)[k];
            WithSide(p, x.side, Insert(SideOf(p, x.side), x)) == Prefix(b, k + 1) && Resting(p) == k
  {
    hide DistinctIds, DisjointIds, BookLaws.Apart, Insert;
    var p, x := Prefix(b, k), (b.bids + b.asks)[k];
    var s := SideOf(p, x.side);
    if k < |b.bids| {
      assert x == b.bids[k] && OrderOk(cfg, Buy, b.lastArrival, x);
      assert s == b.bids[..k] && b.bids[..k + 1] == s + [x];
      assert forall i :: 0 <= i < k ==> Ahead(Buy, b.bids[i], x);
    } else {
      var j := k - |b.bids|;
      assert x == b.asks[j] && OrderOk(cfg, Sell, b.lastArrival, x);
      assert p.bids == b.bids && s == b.asks[..j] && b.asks[..j + 1] == s + [x];
      assert forall i :: 0 <= i < j ==> Ahead(Sell, b.asks[i], x);
    }
    InsertLast(s, x);
  }

  lemma RestoreNext(cfg: Config, b: Book, k: nat)
    requires BookInv(cfg, b) && k < |b.bids| + |b.asks|
    ensures Restore(cfg, Prefix(b, k), (b.bids + b.asks)[k]) == Some(Prefix(b, k + 1))
  {
    hide BookInv, Insert, Find;
    PrefixFresh(cfg, b, k);
    PrefixGrows(cfg, b, k);
    InvRoom(cfg, b);
  }

  lemma InvRoom(cfg: Config, b: Book)
    requires BookInv(cfg, b)
    ensures Resting(b) <= cfg.maxOrders
  {
  }

  lemma {:induction false} RestorePrefix(cfg: Config, b: Book, k: nat)
    requires BookInv(cfg, b) && k <= |b.bids| + |b.asks|
    ensures RestoreAll(cfg, (b.bids + b.asks)[..k]) == Some(Prefix(b, k))
  {
    hide BookInv, Restore;
    var all := b.bids + b.asks;
    if k > 0 {
      RestorePrefix(cfg, b, k - 1);
      assert all[..k][..k - 1] == all[..k - 1] && all[..k][k - 1] == all[k - 1];
      RestoreNext(cfg, b, k - 1);
    }
  }

  /** Loading the snapshot of a book gives back that book: orders, places in every queue, and counters. */
  lemma SnapshotRoundTrip(cfg: Config, b: Book, globalSeq: nat)
    requires BookInv(cfg, b)
    ensures Loaded(cfg, SnapshotOf(b, globalSeq)) == Some(b)
  {
    hide BookInv;
    var all := b.bids + b.asks;
    RestorePrefix(cfg, b, |all|);
    assert all[..|all|] == all && b.asks[..|b.asks|] == b.asks && b.bids[..|b.bids|] == b.bids;
  }

  // ---------------------------------------------------------------------------------------------
  // Recovery
  // ---------------------------------------------------------------------------------------------

  datatype RecoveryStatus = CleanEnd | TornTail | Corrupt

  // The records a snapshot at `from` does not cover; record number n is element n - 1.
  function Tail(journal: seq<Command>, from: nat): seq<Command> {
    if from <= |journal| then journal[from..] else []
  }

  // The book and the number of the last command it contains.
  datatype Recovered = Recovered(book: Book, lastSeq: nat)

  function RecoveredFrom(cfg: Config, snap: Option<Snapshot>, journal: seq<Command>): Option<Recovered> {
    match snap
    case None => Some(Recovered(Run(cfg, EmptyBook, journal), |journal|))
    case Some(s) =>
      match Loaded(cfg, s)
      case None => None
      case Some(b) =>
        Some(Recovered(Run(cfg, b, Tail(journal, s.globalSeq)), if s.globalSeq <= |journal| then |journal| else s.globalSeq))
  }

  lemma {:induction false} RunSplit(cfg: Config, b: Book, cs: seq<Command>, ds: seq<Command>)
    ensures Run(cfg, b, cs + ds) == Run(cfg, Run(cfg, b, cs), ds)
    decreases |ds|
  {
    hide Step;
    if ds == [] {
      assert cs + ds == cs;
    } else {
      var last := |ds| - 1;
      RunSplit(cfg, b, cs, ds[..last]);
      assert (cs + ds)[..|cs + ds| - 1] == cs + ds[..last];
    }
  }

  /** Recovery is replay: with no snapshot, or with the snapshot of any prefix of the journal, the recovered book is
      the book of a full replay, and it is numbered like the journal. */
  lemma RecoveryIsReplay(cfg: Config, journal: seq<Command>, snap: Option<Snapshot>, k: nat)
    requires ValidConfig(cfg) && forall i :: 0 <= i < |journal| ==> GridCommand(cfg, journal[i])
    requires k <= |journal| && (snap.None? || snap == Some(SnapshotOf(Run(cfg, EmptyBook, journal[..k]), k)))
    ensures RecoveredFrom(cfg, snap, journal) == Some(Recovered(Run(cfg, EmptyBook, journal), |journal|))
  {
    hide BookInv, Run, Loaded, SnapshotOf;
    if snap.Some? {
      StartsEqual(cfg);
      RunKeeps(cfg, EmptyBook, journal[..k]);
      var b := Run(cfg, EmptyBook, journal[..k]);
      SnapshotRoundTrip(cfg, b, k);
      RunSplit(cfg, EmptyBook, journal[..k], journal[k..]);
      assert journal[..k] + journal[k..] == journal;
      assert SnapshotOf(b, k).globalSeq == k by { SnapshotAt(b, k); }
    }
  }

  lemma SnapshotAt(b: Book, k: nat)
    ensures SnapshotOf(b, k).globalSeq == k
  {
  }

  /** And the two books stay together: whatever commands follow, they end in the same book and publish the same
      trades, updates and statuses. */
  lemma RecoveredRunsOn(cfg: Config, journal: seq<Command>, snap: Option<Snapshot>, k: nat, later: seq<Command>, cap: nat)
    requires ValidConfig(cfg) && forall i :: 0 <= i < |journal| ==> GridCommand(cfg, journal[i])
    requires k <= |journal| && (snap.None? || snap == Some(SnapshotOf(Run(cfg, EmptyBook, journal[..k]), k)))
    ensures RecoveredFrom(cfg, snap, journal).Some?
    ensures var r := RecoveredFrom(cfg, snap, journal).value;
      && Run(cfg, r.book, later) == Run(cfg, EmptyBook, journal + later)
      && EventsOfRun(cfg, r.book, later, r.lastSeq + 1, cap)
         == EventsOfRun(cfg, Run(cfg, EmptyBook, journal), later, |journal| + 1, cap)
  {
    hide Run, EventsOfRun, RecoveredFrom;
    RecoveryIsReplay(cfg, journal, snap, k);
    RunSplit(cfg, EmptyBook, journal, later);
  }

  // ---------------------------------------------------------------------------------------------
  // At any price
  // ---------------------------------------------------------------------------------------------

  function SlotRestore(cfg: Config, b: SlotBook, x: Order): Option<SlotBook>
    requires cfg.tick > 0
  {
    if Resting(b.book) < cfg.maxOrders && !IsResting(b.book, x.id) then Some(SlotAdd(cfg, b, x)) else None
  }

  function SlotRestoreAll(cfg: Config, orders: seq<Order>): Option<SlotBook>
    requires cfg.tick > 0
  {
    if orders == [] then Some(EmptySlots)
    else
      match SlotRestoreAll(cfg, orders[..|orders| - 1])
      case None => None
      case Some(b) => SlotRestore(cfg, b, orders[|orders| - 1])
  }

  function SlotLoaded(cfg: Config, s: Snapshot): Option<SlotBook>
    requires cfg.tick > 0
  {
    match SlotRestoreAll(cfg, s.orders)
    case None => None
    case Some(b) => Some(b.(book := b.book.(lastArrival := s.bookSeq, nextTradeId := s.nextTradeId)))
  }

  datatype SlotRecovered = SlotRecovered(state: SlotBook, lastSeq: nat)

  // Recovery as the level arrays run it.
  function SlotRecoveredFrom(cfg: Config, snap: Option<Snapshot>, journal: seq<Command>): Option<SlotRecovered>
    requires cfg.tick > 0
  {
    match snap
    case None => Some(SlotRecovered(SlotRun(cfg, EmptySlots, journal), |journal|))
    case Some(s) =>
      match SlotLoaded(cfg, s)
      case None => None
      case Some(b) =>
        Some(SlotRecovered(SlotRun(cfg, b, Tail(journal, s.globalSeq)), if s.globalSeq <= |journal| then |journal| else s.globalSeq))
  }

  // Snapshot and journal name grid prices only, and what the snapshot restores is a well-formed book.
  ghost predicate GridInput(cfg: Config, snap: Option<Snapshot>, journal: seq<Command>) {
    && ValidConfig(cfg) && (forall i :: 0 <= i < |journal| ==> GridCommand(cfg, journal[i]))
    && (snap.Some? ==> OnGridAll(cfg, snap.value.orders))
    && (snap.Some? && Loaded(cfg, snap.value).Some? ==> BookInv(cfg, Loaded(cfg, snap.value).value))
  }

  lemma {:induction false} GridRestoreAll(cfg: Config, orders: seq<Order>)
    requires ValidConfig(cfg) && OnGridAll(cfg, orders)
    ensures match RestoreAll(cfg, orders)
      case None => SlotRestoreAll(cfg, orders).None?
      case Some(b) => SlotRestoreAll(cfg, orders) == Some(OfBook(b)) && OnGridAll(cfg, b.bids) && OnGridAll(cfg, b.asks)
  {
    hide Insert, SlotAdd, OfBook, Find, OnGrid;
    if orders == [] {
      NothingTracked();
    } else {
      var most, x := orders[..|orders| - 1], orders[|orders| - 1];
      GridRestoreAll(cfg, most);
      if RestoreAll(cfg, most).Some? {
        var b := RestoreAll(cfg, most).value;
        OfBookBook(b);
        GridAdd(cfg, b, x);
        InsertIs(SideOf(b, x.side), x);
      }
    }
  }

  /** On the grid, recovery by slot is recovery by price and time. */
  lemma GridRecovered(cfg: Config, snap: Option<Snapshot>, journal: seq<Command>)
    requires GridInput(cfg, snap, journal)
    ensures match RecoveredFrom(cfg, snap, journal)
      case None => SlotRecoveredFrom(cfg, snap, journal).None?
      case Some(r) => SlotRecoveredFrom(cfg, snap, journal) == Some(SlotRecovered(OfBook(r.book), r.lastSeq)) && BookInv(cfg, r.book)
  {
    hide BookInv, Run, SlotRun, RestoreAll, SlotRestoreAll, OnGridAll;
    StartsEqual(cfg);
    NothingTracked();
    match snap
    case None =>
      GridRun(cfg, EmptyBook, journal);
      RunKeeps(cfg, EmptyBook, journal);
    case Some(s) =>
      GridRestoreAll(cfg, s.orders);
      if Loaded(cfg, s).Some? {
        var b, rest := Loaded(cfg, s).value, Tail(journal, s.globalSeq);
        assert SlotLoaded(cfg, s) == Some(OfBook(b));
        GridRun(cfg, b, rest);
        RunKeeps(cfg, b, rest);
      }
  }

  // ---------------------------------------------------------------------------------------------
  // The code
  // ---------------------------------------------------------------------------------------------

  /** `SnapshotWriter::write` as far as its contents go. */
  method WriteSnapshot(book: OrderBook, globalSeq: nat) returns (s: Snapshot)
    requires book.Sound(Buy, -1)
    ensures book.Sound(Buy, -1) && s == SnapshotOf(book.View(), globalSeq)
  {
    hide OrderBook.Sound, BookInv, OrdersOn, OrderBook.Body;
    book.SoundEitherSide(Buy);
    var bids := book.Orders(Buy);
    book.SoundEitherSide(Buy);
    var asks := book.Orders(Sell);
    book.SoundEitherSide(Sell);
    s := Snapshot(globalSeq, book.lastArrival, book.nextTradeId, bids + asks);
  }

  // One journal record. The trade slots are scratch: what does not fit is counted and forgotten, and nothing
  // reads the rest.
  method ApplyRecord(book: OrderBook, c: Command, scratch: Buffer<Trade>)
    requires book.Sound(Buy, -1) && book.Outside(scratch, null)
    modifies book.Repr(), scratch, scratch.data
    ensures book.Sound(Buy, -1) && book.Outside(scratch, null) && book.cfg.tick > 0
    ensures book.SlotView() == SlotStep(book.cfg, old(book.SlotView()), c).state
  {
    hide OrderBook.Valid, OrderBook.View, OrderBook.SlotView, SlotSubmit, SlotCancel, SlotReplace, OrderBook.Body, OrderBook.Sound;
    match c {
      case New(o) => var r := book.SubmitEx(o, scratch, null);
      case Cancel(id) => var r := book.CancelFor(id, scratch, null);
      case Replace(oldId, amended) => var r, cancelled, removed := book.ReplaceEx(oldId, amended, scratch, null);
    }
  }

  // The snapshot's orders, one by one, until one cannot be restored.
  method RestoreOrders(book: OrderBook, orders: seq<Order>, ghost scratch: Buffer<Trade>) returns (ok: bool)
    requires book.Sound(Buy, -1) && book.SlotView() == EmptySlots && book.Outside(scratch, null) && book.cfg.tick > 0
    requires forall i :: 0 <= i < |orders| ==> InRange(book.cfg, orders[i].price)
    modifies book.Repr()
    ensures book.Sound(Buy, -1) && book.Outside(scratch, null) && ok == SlotRestoreAll(book.cfg, orders).Some?
    ensures ok ==> book.SlotView() == SlotRestoreAll(book.cfg, orders).value
  {
    hide OrderBook.Sound, OrderBook.View, OrderBook.Body, SlotAdd, IsResting;
    var i := 0;
    while i < |orders|
      invariant 0 <= i <= |orders| && book.Sound(Buy, -1) && book.Outside(scratch, null)
      invariant SlotRestoreAll(book.cfg, orders[..i]) == Some(book.SlotView())
    {
      assert orders[..i + 1][..i] == orders[..i];
      var fits := book.RestoreResting(orders[i]);
      if !fits {
        RestoreStuck(book.cfg, orders, i + 1);
        return false;
      }
      i := i + 1;
    }
    assert orders[..i] == orders;
    ok := true;
  }

  lemma {:induction false} RestoreStuck(cfg: Config, orders: seq<Order>, k: nat)
    requires cfg.tick > 0 && k <= |orders| && SlotRestoreAll(cfg, orders[..k]).None?
    ensures SlotRestoreAll(cfg, orders).None?
    decreases |orders|
  {
    if k < |orders| {
      var most := orders[..|orders| - 1];
      assert most[..k] == orders[..k];
      RestoreStuck(cfg, most, k);
    } else {
      assert orders[..k] == orders;
    }
  }

  /** `recover`, on an empty book, with what the snapshot directory offered, the records the journal yields and the
      way reading them ended. */
  method Recover(book: OrderBook, snap: Option<Snapshot>, journal: seq<Command>, ending: RecoveryStatus, scratch: Buffer<Trade>)
    returns (status: RecoveryStatus, lastSeq: nat)
    requires book.Valid() && book.View() == EmptyBook && book.Outside(scratch, null)
    requires snap.Some? ==> forall i :: 0 <= i < |snap.value.orders| ==> InRange(book.cfg, snap.value.orders[i].price)
    modifies book.Repr(), scratch, scratch.data
    ensures book.cfg.tick > 0
    ensures match SlotRecoveredFrom(book.cfg, snap, journal)
      case None => status == Corrupt
      case Some(r) => status == ending && book.Sound(Buy, -1) && book.SlotView() == r.state && lastSeq == r.lastSeq
    ensures GridInput(book.cfg, snap, journal) ==>
      match RecoveredFrom(book.cfg, snap, journal)
      case None => status == Corrupt
      case Some(r) => status == ending && book.Valid() && book.View() == r.book && lastSeq == r.lastSeq
  {
    hide OrderBook.Sound, OrderBook.Body, BookInv, OrderBook.View, SlotRun, SlotRestoreAll, GridInput, RecoveredFrom, OfBook;
    book.ValidIsSound();
    book.Ticking();
    NothingTracked();
    if GridInput(book.cfg, snap, journal) {
      GridRecovered(book.cfg, snap, journal);
    }
    var snapshotSeq := 0;
    if snap.Some? {
      var ok := RestoreOrders(book, snap.value.orders, scratch);
      if !ok {
        return Corrupt, 0;
      }
      SetCounters(book, snap.value.bookSeq, snap.value.nextTradeId);
      snapshotSeq := snap.value.globalSeq;
    }
    lastSeq := ReplayAfter(book, snapshotSeq, journal, scratch);
    status := ending;
    assert Tail(journal, 0) == journal;
    if GridInput(book.cfg, snap, journal) {
      book.Regained(RecoveredFrom(book.cfg, snap, journal).value.book);
    }
  }

  method SetCounters(book: OrderBook, last: int, tradeId: int)
    requires book.Sound(Buy, -1)
    modifies book.Repr()
    ensures book.Sound(Buy, -1)
    ensures book.SlotView() == old(book.SlotView()).(book := old(book.SlotView()).book.(lastArrival := last, nextTradeId := tradeId))
  {
    hide OrderBook.Sound, OrderBook.Body, OrdersOn;
    book.RestoreCounters(last, tradeId);
  }

  // Replay every record beyond `from`.
  method ReplayAfter(book: OrderBook, from: nat, journal: seq<Command>, scratch: Buffer<Trade>) returns (lastSeq: nat)
    requires book.Sound(Buy, -1) && book.Outside(scratch, null) && book.cfg.tick > 0
    modifies book.Repr(), scratch, scratch.data
    ensures book.Sound(Buy, -1) && book.Outside(scratch, null)
    ensures book.SlotView() == SlotRun(book.cfg, old(book.SlotView()), Tail(journal, from))
    ensures lastSeq == if from <= |journal| then |journal| else from
  {
    hide OrderBook.Sound, OrderBook.SlotView, OrderBook.Body, SlotStep;
    lastSeq := from;
    var i := 0;
    while i < |journal|
      invariant 0 <= i <= |journal| && book.Sound(Buy, -1) && book.Outside(scratch, null)
      invariant book.SlotView() == SlotRun(book.cfg, old(book.SlotView()), Tail(journal[..i], from))
      invariant lastSeq == if from <= i then i else from
    {
      var seq_ := i + 1;
      TailSnoc(journal, from, i);
      if seq_ > from {
        ApplyRecord(book, journal[i], scratch);
        lastSeq := seq_;
      }
      i := i + 1;
    }
    assert journal[..i] == journal;
  }

  lemma TailSnoc(journal: seq<Command>, from: nat, i: nat)
    requires i < |journal|
    ensures Tail(journal[..i + 1], from) == if i + 1 > from then Tail(journal[..i], from) + [journal[i]] else []
    ensures i + 1 <= from ==> Tail(journal[..i], from) == []
  {
  }

  // ---------------------------------------------------------------------------------------------
  // The snapshot thread
  // ---------------------------------------------------------------------------------------------

  // The records a request for `target` replays.
  function Covered(journal: seq<Command>, target: nat): seq<Command> {
    if target <= |journal| then journal[..target] else journal
  }

  // What a request for `target` writes: the replay of the records up to `target`, stamped with `target`.
  function SyncSnapshot(cfg: Config, journal: seq<Command>, target: nat): Snapshot {
    SnapshotOf(Run(cfg, EmptyBook, if target <= |journal| then journal[..target] else journal), target)
  }

  /** `snapshotNowSync` on a fresh shadow book. */
  method SnapshotNowSync(shadow: OrderBook, journal: seq<Command>, target: nat, scratch: Buffer<Trade>) returns (s: Snapshot)
    requires shadow.Valid() && shadow.View() == EmptyBook && shadow.Outside(scratch, null)
    modifies shadow.Repr(), scratch, scratch.data
    ensures shadow.cfg.tick > 0 && s == SnapshotOf(SlotRun(shadow.cfg, EmptySlots, Covered(journal, target)).book, target)
    ensures (forall i :: 0 <= i < |journal| ==> GridCommand(shadow.cfg, journal[i])) ==> s == SyncSnapshot(shadow.cfg, journal, target)
  {
    hide OrderBook.Sound, OrderBook.Body, SlotStep, OfBook, BookInv, Run;
    shadow.ValidIsSound();
    shadow.Ticking();
    NothingTracked();
    if forall i :: 0 <= i < |journal| ==> GridCommand(shadow.cfg, journal[i]) {
      GridRun(shadow.cfg, EmptyBook, Covered(journal, target));
      OfBookBook(Run(shadow.cfg, EmptyBook, Covered(journal, target)));
    }
    var i := 0;
    while i < |journal| && i + 1 <= target
      invariant 0 <= i <= |journal| && i <= target && shadow.Sound(Buy, -1) && shadow.Outside(scratch, null)
      invariant shadow.SlotView() == SlotRun(shadow.cfg, EmptySlots, journal[..i])
    {
      assert journal[..i + 1][..i] == journal[..i];
      ApplyRecord(shadow, journal[i], scratch);
      i := i + 1;
    }
    assert journal[..i] == Covered(journal, target);
    s := WriteSnapshot(shadow, target);
  }

  lemma SyncRestores(cfg: Config, journal: seq<Command>, target: nat)
    requires ValidConfig(cfg) && forall i :: 0 <= i < |journal| ==> GridCommand(cfg, journal[i])
    ensures Loaded(cfg, SyncSnapshot(cfg, journal, target))
         == Some(Run(cfg, EmptyBook, if target <= |journal| then journal[..target] else journal))
  {
    hide BookInv, Run, Loaded, SnapshotOf;
    var covered := if target <= |journal| then journal[..target] else journal;
    StartsEqual(cfg);
    RunKeeps(cfg, EmptyBook, covered);
    SnapshotRoundTrip(cfg, Run(cfg, EmptyBook, covered), target);
  }

  /** A requested snapshot is a snapshot of the journal exactly when the request does not run ahead of it: then, and
      only then, recovering from it gives the replayed book under the journal's own numbering. */
  lemma SyncExactIff(cfg: Config, journal: seq<Command>, target: nat)
    requires ValidConfig(cfg) && forall i :: 0 <= i < |journal| ==> GridCommand(cfg, journal[i])
    ensures RecoveredFrom(cfg, Some(SyncSnapshot(cfg, journal, target)), journal)
            == Some(Recovered(Run(cfg, EmptyBook, journal), |journal|))
        <==> target <= |journal|
  {
    hide Run, Loaded, SnapshotOf;
    SyncRestores(cfg, journal, target);
    SnapshotAt(Run(cfg, EmptyBook, if target <= |journal| then journal[..target] else journal), target);
    if target <= |journal| {
      RecoveryIsReplay(cfg, journal, Some(SyncSnapshot(cfg, journal, target)), target);
    }
  }

  /** A snapshot that does run ahead makes recovery skip every command journaled later up to its number. */
  lemma SyncAheadSkips(cfg: Config, journal: seq<Command>, target: nat, later: seq<Command>)
    requires ValidConfig(cfg) && forall i :: 0 <= i < |journal| ==> GridCommand(cfg, journal[i])
    requires |journal| + |later| <= target
    ensures RecoveredFrom(cfg, Some(SyncSnapshot(cfg, journal, target)), journal + later)
         == Some(Recovered(Run(cfg, EmptyBook, journal), target))
  {
    hide Loaded, SnapshotOf, Step;
    SyncRestores(cfg, journal, target);
    SnapshotAt(Run(cfg, EmptyBook, if target <= |journal| then journal[..target] else journal), target);
    assert journal[..|journal|] == journal;
    assert Tail(journal + later, target) == [];
  }
}
