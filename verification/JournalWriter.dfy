/** The journal writer: it appends, rolls and syncs, and goes on in a torn journal. */
module JournalWriters {
  import opened Types
  import opened Bytes
  import opened JournalFormat
  import opened Journal
  import opened Readings
  import opened Durability
  import opened Restarts

  datatype FsyncPolicy = PerRecord | Group(size: nat)

  // The directory with one more record in its newest segment.
  function WithRecord(d: Disk, rec: Record): Disk
    requires d != []
  {
    var seg := Newest(d);
    WithNewest(d, seg.(recs := seg.recs + [rec], size := seg.size + RECORD))
  }

  // The newest `k` records are in the newest segment.
  ghost predicate Recent(d: Disk, k: nat) {
    k == 0 || (d != [] && k <= |Newest(d).recs|)
  }

  // `written` is what the journal ends in, and all of it but the newest `pending` records is acknowledged.
  ghost predicate Logged(d: Disk, acked: set<Record>, written: seq<Record>, pending: nat) {
    && pending <= |written| <= |Records(d)| && written == Records(d)[|Records(d)| - |written|..]
    && (forall k :: 0 <= k < |written| - pending ==> written[k] in acked)
    && Recent(d, pending)
  }

  class JournalWriter {
    const rollBytes: nat
    const policy: FsyncPolicy

    // The journal directory.
    var disk: Disk

    var isOpen: bool
    var bytesInSegment: nat
    var pendingUnsynced: nat
    var createdCounter: nat
    var lastSeq: int

    // How much of each file is durable, what has been acknowledged, and what this writer has appended.
    ghost var marks: seq<nat>
    ghost var acked: set<Record>
    ghost var written: seq<Record>

    ghost function State(): World
      reads this
    {
      World(disk, marks, Up(isOpen, createdCounter, Total(disk)), acked)
    }

    ghost predicate Shape()
      reads this
    {
      && |marks| == |disk|
      && (isOpen ==> disk != [] && bytesInSegment == Newest(disk).size && marks[|disk| - 1] >= HEADER)
      && (!isOpen ==> pendingUnsynced == 0)
    }

    ghost predicate Valid()
      reads this
    {
      Shape() && Inv(State()) && Logged(disk, acked, written, pendingUnsynced)
    }

    // A writer over the directory a recovery found clean; the newest segment, if any, is not reopened, and nothing is
    // synced.
    constructor (rollBytes: nat, policy: FsyncPolicy, d: Disk, ghost marks: seq<nat>, ghost acked: set<Record>)
      requires Inv(World(d, marks, Down, acked)) && !IsTorn(d)
      ensures Valid() && !isOpen && State() == Do(World(d, marks, Down, acked), Recover) && written == []
      ensures this.rollBytes == rollBytes && this.policy == policy && createdCounter == 0
    {
      hide Inv, Total, Do, Records, IsTorn;
      this.rollBytes, this.policy, disk := rollBytes, policy, d;
      isOpen, bytesInSegment, pendingUnsynced, createdCounter, lastSeq := false, 0, 0, 0, 0;
      this.marks, this.acked, written := marks, acked, [];
      new;
      CleanStart(World(d, marks, Down, acked));
    }

    // `resumeFrom`: cut the torn tail off the newest segment and go on in it. Nothing is synced.
    method ResumeFrom(validOffset: nat, counter: nat, last: int)
      requires Inv(State().(writer := Down)) && IsTorn(disk) && pendingUnsynced == 0
      requires validOffset == HEADER + RECORD * Whole(Newest(disk)) && counter == Newest(disk).counter
      modifies this
      ensures Valid() && isOpen && lastSeq == last && written == []
      ensures State() == Do(old(State()).(writer := Down), Recover) && Records(disk) == old(Records(disk))
    {
      hide DiskOk, Records, CutTo, SegmentOk, Whole, Held;
      ghost var w := State().(writer := Down);
      RecoverKeeps(w);
      TornMark(w);
      CutShape(Newest(disk), validOffset);
      disk := WithNewest(disk, CutTo(Newest(disk), validOffset));
      isOpen, bytesInSegment, createdCounter, lastSeq := true, validOffset, counter + 1, last;
      marks := Do(w, Recover).marks;
      written := [];
      assert State() == Do(w, Recover) by { TrimTotal(w.disk); }
    }

    // `openSegment`: a new file, its header synced before anything else is written.
    method OpenSegment(first: nat)
      requires Shape() && pendingUnsynced == 0
      modifies this
      ensures Shape() && isOpen && createdCounter == old(createdCounter) + 1
      ensures disk == WithSegment(old(disk), Segment(first, old(createdCounter), [], HEADER))
      ensures marks == if SameName(old(disk), first) then old(marks)[|old(disk)| - 1 := HEADER] else old(marks) + [HEADER]
      ensures acked == old(acked) && written == old(written) && lastSeq == old(lastSeq) && pendingUnsynced == 0
    {
      marks := if SameName(disk, first) then marks[|disk| - 1 := HEADER] else marks + [HEADER];
      disk := WithSegment(disk, Segment(first, createdCounter, [], HEADER));
      isOpen, createdCounter, bytesInSegment := true, createdCounter + 1, HEADER;
    }

    method SyncNow()
      requires Shape() && isOpen && Newest(disk).size >= HEADER
      modifies this
      ensures Shape() && isOpen && disk == old(disk) && lastSeq == old(lastSeq) && createdCounter == old(createdCounter)
      ensures marks == old(marks)[|disk| - 1 := Newest(disk).size] && written == old(written)
      ensures acked == old(acked) + (set r | r in Newest(disk).recs) && pendingUnsynced == 0
    {
      marks := marks[|disk| - 1 := Newest(disk).size];
      acked := acked + set r | r in Newest(disk).recs;
      pendingUnsynced := 0;
    }

    method WriteRecord(globalSeq: nat, kind: byte, payload: seq<byte>)
      requires Shape() && isOpen
      modifies this
      ensures Shape() && isOpen && disk == WithRecord(old(disk), Record(globalSeq, kind, payload))
      ensures lastSeq == globalSeq && createdCounter == old(createdCounter) && marks == old(marks) && acked == old(acked)
      ensures written == old(written) + [Record(globalSeq, kind, payload)] && pendingUnsynced == old(pendingUnsynced) + 1
    {
      var seg := Newest(disk);
      disk := WithNewest(disk, seg.(recs := seg.recs + [Record(globalSeq, kind, payload)], size := seg.size + RECORD));
      bytesInSegment, lastSeq, pendingUnsynced := bytesInSegment + RECORD, globalSeq, pendingUnsynced + 1;
      written := written + [Record(globalSeq, kind, payload)];
    }

    // The next record goes into a new segment: none is open, or the open one has no room.
    ghost predicate Rolls()
      reads this
    {
      !isOpen || disk == [] || Newest(disk).size + RECORD > rollBytes
    }

    // `rollSegment` or `openSegment` where `append` calls for it; the next record fits or is the first of its segment.
    method MakeRoom(first: nat) returns (rolled: bool)
      requires Valid() && 1 <= first < Pow256(8) && createdCounter < Pow256(8)
      modifies this
      ensures Shape() && isOpen && lastSeq == old(lastSeq) && written == old(written) && Newest(disk).size >= HEADER
      ensures Newest(disk).size + RECORD <= rollBytes || Newest(disk).recs == []
      ensures disk == (if rolled then WithSegment(old(disk), Segment(first, old(createdCounter), [], HEADER)) else old(disk))
      ensures rolled <==> old(Rolls())
      ensures pendingUnsynced == if rolled then 0 else old(pendingUnsynced)
      ensures first == old(Total(disk)) + 1 ==>
        && Valid() && Records(disk) == old(Records(disk)) && Total(disk) == old(Total(disk))
        && (old(Firm(State())) && old(LeavesFirm(State(), Durability.Open)) ==> Firm(State()))
    {
      hide Inv, Logged, Pow256, Firm, LeavesFirm, Records, Total;
      ghost var w := State();
      if isOpen {
        OpenIsEven(w);
      }
      if isOpen && bytesInSegment + RECORD <= rollBytes {
        return false;
      }
      if isOpen {
        SyncKeeps(w);
        SyncLogs(w, written, pendingUnsynced);
        SyncNow();
        assert State() == Do(w, Durability.Sync);
      }
      ghost var w1 := State();
      OpenSegment(first);
      if first == Total(w1.disk) + 1 {
        OpenThenSync(w1, written);
        assert State() == Do(Do(w1, Durability.Open), Durability.Sync);
      }
      rolled := true;
    }

    /** `append`: one more record at the end of the journal. When each record is synced, it is acknowledged only once
        it is durable; in groups, fewer than a group of this writer's records are ever not, and a sync comes exactly with
        the last of a group. A new segment is begun exactly if none is open or the open one has no room, so that it
        outgrows its limit only to hold one record, and the writer never leaves a file behind that it has not synced. A number
        that is not the next one is written all the same, and ends the journal there as corrupt. */
    method Append(globalSeq: nat, kind: byte, payload: seq<byte>)
      requires Valid() && Total(disk) < globalSeq < Pow256(8) && createdCounter < Pow256(8) && |payload| == PAYLOAD
      modifies this
      ensures lastSeq == globalSeq && isOpen && disk != [] && (Newest(disk).size <= rollBytes || |Newest(disk).recs| == 1)
      ensures written == old(written) + [Record(globalSeq, kind, payload)]
      ensures var d := if old(Rolls()) then WithSegment(old(disk), Segment(globalSeq, old(createdCounter), [], HEADER)) else old(disk);
        d != [] && disk == WithRecord(d, Record(globalSeq, kind, payload))
      ensures var n := 1 + if old(Rolls()) then 0 else old(pendingUnsynced);
        pendingUnsynced == if policy.PerRecord? || n >= policy.size then 0 else n
      ensures globalSeq == old(Total(disk)) + 1 ==>
        && Valid() && Records(disk) == old(Records(disk)) + [Record(globalSeq, kind, payload)]
        && (forall k :: 0 <= k < |written| - pendingUnsynced ==> written[k] in acked)
        && (if policy.PerRecord? then pendingUnsynced == 0 else pendingUnsynced == 0 || pendingUnsynced < policy.size)
        && (old(Firm(State())) && old(LeavesFirm(State(), Durability.Open)) ==> Firm(State()))
      ensures globalSeq != old(Total(disk)) + 1 ==>
        && Readable(disk) && ReadAll(disk, NewReader(disk)).0 == old(Records(disk))
        && ReadAll(disk, NewReader(disk)).2 == Corrupt(Record(globalSeq, kind, payload))
    {
      hide Inv, Logged, Pow256, Firm, LeavesFirm, Total, ReadAll, Records, Readable;
      ghost var d0, c0, rec := disk, createdCounter, Record(globalSeq, kind, payload);
      ghost var w0 := State();
      WithinDisk(w0);
      var rolled := MakeRoom(globalSeq);
      ghost var w, was, before := State(), written, pendingUnsynced;
      WriteRecord(globalSeq, kind, payload);
      if globalSeq == Total(d0) + 1 {
        WriteLogs(w, was, before, rec);
        assert State() == Do(w, Durability.Write(kind, payload)) by { WriteDisk(w, kind, payload); }
      } else {
        WrongNumber(w0, rolled, c0, rec);
      }
      if policy.PerRecord? || pendingUnsynced >= policy.size {
        ghost var w1 := State();
        SyncNow();
        if globalSeq == Total(d0) + 1 {
          SyncKeeps(w1);
          SyncLogs(w1, written, before + 1);
        }
      }
      if globalSeq == Total(d0) + 1 {
        LoggedAcks(disk, acked, written, pendingUnsynced);
      }
    }
  }

  lemma LoggedAcks(d: Disk, acked: set<Record>, written: seq<Record>, pending: nat)
    requires Logged(d, acked, written, pending)
    ensures pending <= |written| && forall k :: 0 <= k < |written| - pending ==> written[k] in acked
  {
  }

  lemma CleanStart(w: World)
    requires Inv(w) && w.writer.Down? && !IsTorn(w.disk)
    ensures var w' := w.(writer := Up(false, 0, Total(w.disk)));
      Inv(w') && Enabled(w, Recover) && Do(w, Recover) == w' && |w.marks| == |w.disk|
  {
    hide DiskOk, Held, Total, Marked;
    MarksMatch(w);
    RecoverKeeps(w);
  }

  // A torn segment had its header synced before the record that is torn was written.
  lemma TornMark(w: World)
    requires Inv(w) && Enabled(w, Recover) && IsTorn(w.disk)
    ensures var w' := Do(w, Recover); |w'.marks| == |w'.disk| == |w.disk| && w'.marks[|w.disk| - 1] >= HEADER
  {
    hide DiskOk, Held;
    TornMarked(Newest(w.disk), w.marks[|w.disk| - 1]);
    CutShape(Newest(w.disk), HEADER + RECORD * Whole(Newest(w.disk)));
  }

  lemma TornMarked(seg: Segment, m: nat)
    requires seg.size >= HEADER && (seg.size - HEADER) % RECORD != 0
    ensures seg.size > HEADER
  {
  }

  lemma TrimTotal(d: Disk)
    requires DiskOk(d) && IsTorn(d)
    ensures Total(WithNewest(d, Trimmed(Newest(d)))) == Total(d)
  {
    hide DiskOk, Trimmed, Total;
    TrimNewest(d);
  }

  lemma OpenIsEven(w: World)
    requires Inv(w) && w.writer.Up? && w.writer.isOpen
    ensures w.disk != [] && Even(Newest(w.disk)) && |w.marks| == |w.disk| && w.marks[|w.disk| - 1] <= Newest(w.disk).size
  {
  }

  // A sync acknowledges everything the writer has appended.
  lemma SyncLogs(w: World, written: seq<Record>, pending: nat)
    requires Inv(w) && Enabled(w, Durability.Sync) && Logged(w.disk, w.acked, written, pending)
    ensures var w' := Do(w, Durability.Sync);
      && Logged(w'.disk, w'.acked, written, 0) && w'.disk == w.disk
      && (Firm(w) ==> Firm(w')) && (LeavesFirm(w, Durability.Open) ==> LeavesFirm(w', Durability.Open))
  {
    hide Records, DiskOk, Held, Total, Marked;
    var d, w' := w.disk, Do(w, Durability.Sync);
    MarksMatch(w);
    NewestLast(d);
    forall k | 0 <= k < |written| ensures written[k] in w'.acked {
      if k >= |written| - pending {
        var recs, all := Newest(d).recs, Records(d);
        var j := |all| - |written| + k;
        assert written[k] == all[j] && j >= |all| - pending >= |all| - |recs|;
        assert all[j] == recs[j - (|all| - |recs|)];
      }
    }
  }

  // The records of a journal end in those of its newest segment.
  lemma NewestLast(d: Disk)
    requires d != [] && Even(Newest(d))
    ensures var recs, all := Newest(d).recs, Records(d); |recs| <= |all| && all[|all| - |recs|..] == recs
  {
    assert Whole(Newest(d)) == |Newest(d).recs|;
  }

  lemma OpenThenSync(w: World, written: seq<Record>)
    requires Inv(w) && Enabled(w, Durability.Open) && Logged(w.disk, w.acked, written, 0)
    ensures Enabled(Do(w, Durability.Open), Durability.Sync)
    ensures var w' := Do(Do(w, Durability.Open), Durability.Sync);
      && Inv(w') && Records(w'.disk) == Records(w.disk) && w'.acked == w.acked && Logged(w'.disk, w'.acked, written, 0)
      && Total(w'.disk) == Total(w.disk)
      && (Firm(w) && LeavesFirm(w, Durability.Open) ==> Firm(w'))
  {
    hide Records, Inv, Firm, LeavesFirm, Total, Pow256;
    OpenKeeps(w);
    OpenDisk(w);
    var w1 := Do(w, Durability.Open);
    MarksMatch(w1);
    OpenIsEven(w1);
    SyncKeeps(w1);
    assert (set r | r in Newest(w1.disk).recs) == {};
    assert w1.acked + {} == w.acked;
    WriterTotal(w);
  }

  lemma WriterTotal(w: World)
    requires Inv(w) && w.writer.Up?
    ensures w.writer.lastSeq == Total(w.disk)
  {
  }

  lemma WriteLogs(w: World, written: seq<Record>, pending: nat, rec: Record)
    requires Inv(w) && w.disk != [] && Enabled(w, Durability.Write(rec.kind, rec.payload)) && rec.globalSeq == w.writer.lastSeq + 1
    requires Logged(w.disk, w.acked, written, pending)
    ensures var w' := Do(w, Durability.Write(rec.kind, rec.payload));
      && Inv(w') && Records(w'.disk) == Records(w.disk) + [rec] && Logged(w'.disk, w.acked, written + [rec], pending + 1)
      && Total(w'.disk) == rec.globalSeq && (Firm(w) ==> Firm(w'))
  {
    hide Records, Inv, Firm, Total, Pow256;
    WriteKeeps(w, rec.kind, rec.payload);
    WriteDisk(w, rec.kind, rec.payload);
    var all, all' := Records(w.disk), Records(w.disk) + [rec];
    assert all'[|all'| - |written| - 1..] == all[|all| - |written|..] + [rec];
    MarksMatch(w);
  }

  /** A record under a number that is not the next one, in the open segment or in a new one, ends the journal. */
  lemma WrongNumber(w: World, rolled: bool, counter: nat, rec: Record)
    requires Inv(w) && w.writer.Up? && (rolled || w.writer.isOpen) && counter < Pow256(8)
    requires RecordOk(rec) && rec.globalSeq > Total(w.disk) + 1
    ensures var d1 := if rolled then WithSegment(w.disk, Segment(rec.globalSeq, counter, [], HEADER)) else w.disk;
      && d1 != [] && Readable(WithRecord(d1, rec))
      && var (recs, _, res) := ReadAll(WithRecord(d1, rec), NewReader(WithRecord(d1, rec)));
      recs == Records(w.disk) && res == Corrupt(rec)
  {
    hide Records, Pow256, DiskOk, ReadAll, WellFormed, RecordOk, Whole, Held, Readable, Total, NewReader;
    var d := w.disk;
    UpNotTorn(w);
    if rolled {
      FirstWithin(d);
      GapFresh(d, rec.globalSeq - 1, counter, rec);
      var seg := Segment(rec.globalSeq, counter, [], HEADER);
      assert [] + [rec] == [rec] && (d + [seg])[..|d|] == d;
      assert WithRecord(d + [seg], rec) == d + [Segment(rec.globalSeq, counter, [rec], HEADER + RECORD)];
    } else {
      GapOpen(d, rec);
    }
  }

  lemma GapOpen(d: Disk, rec: Record)
    requires DiskOk(d) && d != [] && Even(Newest(d)) && RecordOk(rec) && rec.globalSeq > Total(d) + 1
    ensures Readable(WithRecord(d, rec))
    ensures var (recs, _, res) := ReadAll(WithRecord(d, rec), NewReader(WithRecord(d, rec)));
      recs == Records(d) && res == Corrupt(rec)
  {
    hide Records, Pow256, DiskOk, ReadAll, WellFormed, RecordOk, Whole, Readable, Total, NewReader, SegmentOk, BreaksAt;
    var front, t := d[..|d| - 1], Newest(d);
    FrontOk(d);
    FrontClean(d);
    SegmentAt(d, |d| - 1);
    EvenTotal(d);
    BreaksBehind(t, rec);
    var seg' := t.(recs := t.recs + [rec], size := t.size + RECORD);
    GapReads(front, seg', |t.recs|);
    assert seg'.recs[..|t.recs|] == t.recs;
    ReplaceNewest(d, t);
    EvenWhole(t);
    assert WithNewest(d, t) == d && t.recs[..|t.recs|] == t.recs;
  }

  lemma EvenWhole(seg: Segment)
    requires Even(seg)
    ensures Whole(seg) == |seg.recs|
  {
  }

  lemma UpNotTorn(w: World)
    requires Inv(w) && w.writer.Up?
    ensures DiskOk(w.disk) && !IsTorn(w.disk) && (w.writer.isOpen ==> w.disk != [] && Even(Newest(w.disk)))
  {
  }

  lemma WithinDisk(w: World)
    requires Inv(w)
    ensures Total(w.disk) >= 0
  {
    hide Total;
    FirstWithin(w.disk);
  }

  lemma FirstWithin(d: Disk)
    requires DiskOk(d)
    ensures d != [] ==> Newest(d).first <= Total(d) + 1
    ensures Total(d) >= 0
  {
    if d != [] {
      SegmentAt(d, |d| - 1);
    }
  }
}
