/** Appending, rolling, crashing and recovering, in any order, as many times as one likes. Each file has its own
    durable part: only an fsync of that file makes it grow, and recovery issues none. */
module Durability {
  import opened Types
  import opened Bytes
  import opened JournalFormat
  import opened Journal
  import opened Readings

  // A running writer, with the newest segment open or not.
  datatype Writer =
    | Down
    | Up(isOpen: bool, counter: nat, lastSeq: int)

  // The first `marks[i]` bytes of segment i are known to be durable. `acked` holds every record whose append has
  // returned after an fsync of its file.
  datatype World = World(disk: Disk, marks: seq<nat>, writer: Writer, acked: set<Record>)

  datatype Step =
    | Open                                           // `openSegment`, or `rollSegment` once the old one is synced
    | Write(kind: byte, payload: seq<byte>)          // the record reaches the file
    | Sync                                           // fsync of the open segment
    | Crash(cuts: seq<nat>, durable: seq<nat>)       // each file keeps `cuts[i]` bytes, `durable[i]` of them for good
    | Recover                                        // read everything, resume at the torn tail or start afresh

  function Newest(d: Disk): Segment
    requires d != []
  {
    d[|d| - 1]
  }

  // A file name names one file: creating a segment truncates one of the same name.
  predicate SameName(d: Disk, first: int) {
    d != [] && Newest(d).first == first
  }

  function WithSegment(d: Disk, seg: Segment): Disk {
    if SameName(d, seg.first) then d[..|d| - 1] + [seg] else d + [seg]
  }

  function WithNewest(d: Disk, seg: Segment): Disk
    requires d != []
  {
    d[..|d| - 1] + [seg]
  }

  // The records a file of `n` bytes still has some of.
  function Reaches(n: nat): nat {
    if n <= HEADER then 0 else (n - HEADER + RECORD - 1) / RECORD
  }

  function CutTo(seg: Segment, n: nat): Segment {
    seg.(size := n, recs := if Reaches(n) <= |seg.recs| then seg.recs[..Reaches(n)] else seg.recs)
  }

  function CutAll(d: Disk, cuts: seq<nat>): (d': Disk)
    requires |cuts| == |d|
    ensures |d'| == |d| && forall i :: 0 <= i < |d| ==> d'[i] == CutTo(d[i], cuts[i])
  {
    seq(|d|, i requires 0 <= i < |d| => CutTo(d[i], cuts[i]))
  }

  // `resumeFrom`: cut the torn tail off.
  function Trimmed(seg: Segment): Segment {
    CutTo(seg, HEADER + RECORD * Whole(seg))
  }

  ghost predicate Enabled(w: World, step: Step) {
    && |w.marks| == |w.disk|
    && match step
       case Open =>
         && w.writer.Up? && w.writer.lastSeq + 1 < Pow256(8) && w.writer.counter < Pow256(8)
         && (w.writer.isOpen ==> w.disk != [] && w.marks[|w.disk| - 1] == Newest(w.disk).size)
       case Write(_, payload) =>
         && w.writer.Up? && w.writer.isOpen && w.disk != [] && w.marks[|w.disk| - 1] >= HEADER
         && 0 <= w.writer.lastSeq && w.writer.lastSeq + 1 < Pow256(8) && |payload| == PAYLOAD
       case Sync => w.writer.Up? && w.writer.isOpen && w.disk != []
       case Crash(cuts, durable) =>
         && |cuts| == |durable| == |w.disk|
         && forall i :: 0 <= i < |w.disk| ==> w.marks[i] <= durable[i] <= cuts[i] <= w.disk[i].size
       case Recover => w.writer.Down?
  }

  function Do(w: World, step: Step): World
    requires Enabled(w, step)
  {
    var last := |w.disk| - 1;
    match step
    case Open =>
      var first := w.writer.lastSeq + 1;
      w.(disk := WithSegment(w.disk, Segment(if first >= 0 then first else 0, w.writer.counter, [], HEADER)),
         marks := if SameName(w.disk, if first >= 0 then first else 0) then w.marks[last := 0] else w.marks + [0],
         writer := w.writer.(isOpen := true, counter := w.writer.counter + 1))
    case Write(kind, payload) =>
      var seg, rec := Newest(w.disk), Record(w.writer.lastSeq + 1, kind, payload);
      w.(disk := WithNewest(w.disk, seg.(recs := seg.recs + [rec], size := seg.size + RECORD)),
         writer := w.writer.(lastSeq := w.writer.lastSeq + 1))
    case Sync =>
      w.(marks := w.marks[last := Newest(w.disk).size], acked := w.acked + set r | r in Newest(w.disk).recs)
    case Crash(cuts, durable) =>
      w.(disk := CutAll(w.disk, cuts), marks := durable, writer := Down)
    case Recover =>
      if IsTorn(w.disk) then
        var seg := Trimmed(Newest(w.disk));
        w.(disk := WithNewest(w.disk, seg), marks := w.marks[last := if w.marks[last] < seg.size then w.marks[last] else seg.size],
           writer := Up(true, seg.counter + 1, Total(w.disk)))
      else w.(writer := Up(false, 0, Total(w.disk)))
  }

  // The writer goes on where a reader ended: in the segment it has open, behind the last record it delivered, or in a
  // new one.
  predicate ResumesAt(d: Disk, end: Reader, w: World) {
    && w.writer.Up? && w.writer.isOpen == end.isOpen && w.writer.lastSeq == end.lastGood
    && (end.isOpen ==>
          && d != [] && end.current == |d| - 1 && w.writer.counter == end.counter + 1
          && w.disk == WithNewest(d, CutTo(Newest(d), end.offset)))
  }

  /** Recovery learns the journal's number, and where to go on in a torn segment, by reading. */
  lemma RecoverReads(w: World)
    requires DiskOk(w.disk) && Enabled(w, Recover)
    ensures Readable(w.disk)
    ensures ResumesAt(w.disk, ReadAll(w.disk, NewReader(w.disk)).1, Do(w, Recover))
  {
    hide DiskOk, ReadAll, Total, CutTo, Whole, Readable;
    ReadsSound(w.disk);
    if IsTorn(w.disk) {
      CutShape(Newest(w.disk), HEADER + RECORD * Whole(Newest(w.disk)));
    }
  }

  // ---------------------------------------------------------------------------------------------
  // The invariant
  // ---------------------------------------------------------------------------------------------

  // The newest segment has no part of a record.
  ghost predicate Even(seg: Segment) {
    seg.size == HEADER + RECORD * |seg.recs|
  }

  function WholeIn(n: nat): nat {
    if n < HEADER then 0 else (n - HEADER) / RECORD
  }

  // The records that lie within the first `m` bytes.
  function Durable(seg: Segment, m: nat): seq<Record> {
    if WholeIn(m) <= |seg.recs| then seg.recs[..WholeIn(m)] else seg.recs
  }

  ghost predicate HeldAt(d: Disk, marks: seq<nat>, a: Record, i: int) {
    0 <= i < |d| == |marks| && a in Durable(d[i], marks[i])
  }

  // The record lies in the durable part of some segment.
  ghost predicate Held(d: Disk, marks: seq<nat>, a: Record) {
    exists i :: HeldAt(d, marks, a, i)
  }

  // Marks lie within their files, and nothing was written behind a header before that was durable.
  ghost predicate Marked(d: Disk, marks: seq<nat>) {
    |marks| == |d| &&
    forall i :: 0 <= i < |d| ==> marks[i] <= d[i].size && (d[i].size > HEADER ==> marks[i] >= HEADER)
  }

  ghost predicate WriterOk(w: World) {
    match w.writer
    case Down => true
    case Up(isOpen, _, lastSeq) =>
      && lastSeq == Total(w.disk)
      && (isOpen ==> w.disk != [] && Even(Newest(w.disk)))
      && (!isOpen ==> w.disk == [] || Even(Newest(w.disk)) || Newest(w.disk).size < HEADER)
  }

  ghost predicate Inv(w: World) {
    DiskOk(w.disk) && Marked(w.disk, w.marks) && WriterOk(w) && forall a :: a in w.acked ==> Held(w.disk, w.marks, a)
  }

  /** Every segment but the newest is durable to its last byte. */
  ghost predicate Firm(w: World) {
    |w.marks| == |w.disk| && forall i :: 0 <= i < |w.disk| - 1 ==> w.marks[i] == w.disk[i].size
  }

  // What the journal promises of a directory: it reads back as records 1, 2, 3, ... with every acknowledged record
  // among them, and ends at its end, which may be a torn tail of the newest segment.
  ghost predicate Intact(d: Disk, acked: set<Record>) {
    && Readable(d)
    && var (recs, end, res) := ReadAll(d, NewReader(d));
    && (forall n :: 0 <= n < |recs| ==> recs[n].globalSeq == n + 1)
    && (forall a :: a in acked ==> a in recs)
    && (res.EndOfJournal? || (res.TruncatedTail? && end.current == |d| - 1))
  }

  // Nothing durable was lost.
  lemma HeldFrame(d: Disk, marks: seq<nat>, d': Disk, marks': seq<nat>, acked: set<Record>)
    requires forall a :: a in acked ==> Held(d, marks, a)
    requires |marks| == |d| <= |d'| == |marks'| && forall i :: 0 <= i < |d| ==> Durable(d[i], marks[i]) <= Durable(d'[i], marks'[i])
    ensures forall a :: a in acked ==> Held(d', marks', a)
  {
    hide Durable;
    forall a | a in acked ensures Held(d', marks', a) {
      var i :| HeldAt(d, marks, a, i);
      assert HeldAt(d', marks', a, i);
    }
  }

  lemma HeldInRecords(d: Disk, marks: seq<nat>, a: Record)
    requires DiskOk(d) && Marked(d, marks) && Held(d, marks, a)
    ensures a in Records(d)
  {
    hide Records;
    var i :| HeldAt(d, marks, a, i);
    SegmentAt(d, i);
    WholeBound(d[i]);
    WholeMonotone(marks[i], d[i].size);
    var j :| 0 <= j < WholeIn(marks[i]) && d[i].recs[j] == a;
    RecordsAt(d, i, j);
  }

  lemma WholeMonotone(a: nat, b: nat)
    requires a <= b
    ensures WholeIn(a) <= WholeIn(b)
  {
  }

  lemma InvIntact(w: World)
    requires Inv(w)
    ensures Intact(w.disk, w.acked) && ReadAll(w.disk, NewReader(w.disk)).0 == Records(w.disk)
  {
    hide ReadAll, Records, DiskOk, Marked, Held, WriterOk;
    ReadsSound(w.disk);
    RecordsNumbered(w.disk);
    forall a | a in w.acked ensures a in Records(w.disk) {
      HeldInRecords(w.disk, w.marks, a);
    }
  }

  // ---------------------------------------------------------------------------------------------
  // The directory when its newest segment changes
  // ---------------------------------------------------------------------------------------------

  lemma ReplaceNewest(d: Disk, seg: Segment)
    requires DiskOk(d) && d != [] && SegmentOk(seg) && seg.first == Newest(d).first
    ensures DiskOk(WithNewest(d, seg)) && Newest(WithNewest(d, seg)) == seg
    ensures Total(WithNewest(d, seg)) == seg.first - 1 + Whole(seg)
    ensures Whole(seg) <= |seg.recs| && Records(WithNewest(d, seg)) == Records(d[..|d| - 1]) + seg.recs[..Whole(seg)]
  {
    ReplaceOk(d, seg);
    hide DiskOk, SegmentOk;
    var d' := WithNewest(d, seg);
    assert WellFormed(seg) by { SegmentForm(seg); }
    WholeBound(seg);
    assert d'[..|d'| - 1] == d[..|d| - 1];
  }

  lemma SegmentForm(seg: Segment)
    requires SegmentOk(seg)
    ensures WellFormed(seg)
  {
  }

  lemma ReplaceOk(d: Disk, seg: Segment)
    requires DiskOk(d) && d != [] && SegmentOk(seg) && seg.first == Newest(d).first
    ensures DiskOk(WithNewest(d, seg))
  {
    hide SegmentOk;
    var d' := WithNewest(d, seg);
    forall i | 0 <= i < |d'| ensures SegmentOk(d'[i]) {
      assert i < |d| - 1 ==> d'[i] == d[i];
    }
    forall i | 0 <= i < |d'| - 1 ensures Sealed(d'[i]) && d'[i + 1].first == d'[i].first + |d'[i].recs| {
      assert d[i] == d'[i] && d[i + 1].first == d'[i + 1].first;
    }
  }

  lemma AppendSegment(d: Disk, seg: Segment)
    requires DiskOk(d) && SegmentOk(seg) && seg.first == Total(d) + 1 && (d != [] ==> Sealed(Newest(d)))
    ensures DiskOk(d + [seg]) && Total(d + [seg]) == Total(d) + Whole(seg)
    ensures Whole(seg) <= |seg.recs| && Records(d + [seg]) == Records(d) + seg.recs[..Whole(seg)]
  {
    var d' := d + [seg];
    WholeBound(seg);
    if d != [] {
      WholeBound(Newest(d));
    }
    assert d'[..|d|] == d;
  }

  lemma {:induction false} PrefixOk(d: Disk, n: nat)
    requires DiskOk(d) && n <= |d|
    ensures DiskOk(d[..n])
  {
    hide SegmentOk;
  }

  lemma CutWhole(seg: Segment)
    requires WellFormed(seg)
    ensures CutTo(seg, seg.size) == seg
  {
    hide Pow256;
    assert Reaches(seg.size) == |seg.recs|;
  }

  lemma CutOk(seg: Segment, n: nat)
    requires SegmentOk(seg) && n <= seg.size
    ensures var c := CutTo(seg, n);
      && SegmentOk(c) && Whole(c) <= Whole(seg) && Whole(c) <= |c.recs| <= |seg.recs|
      && c.recs[..Whole(c)] == seg.recs[..Whole(c)]
  {
    WholeBound(seg);
    var c := CutTo(seg, n);
    WholeBound(c);
  }

  // ---------------------------------------------------------------------------------------------
  // Every step keeps the invariant
  // ---------------------------------------------------------------------------------------------

  // Opening a segment leaves a file behind that is not durable only if a clean recovery found it so.
  ghost predicate LeavesFirm(w: World, step: Step) {
    step.Open? && |w.marks| == |w.disk| && w.disk != [] && w.writer.Up? && !SameName(w.disk, w.writer.lastSeq + 1) ==>
      w.marks[|w.disk| - 1] == Newest(w.disk).size
  }

  lemma OpenDisk(w: World)
    requires Inv(w) && Enabled(w, Open)
    ensures var seg := Segment(w.writer.lastSeq + 1, w.writer.counter, [], HEADER);
      && w.writer.lastSeq >= 0
      && DiskOk(WithSegment(w.disk, seg)) && Total(WithSegment(w.disk, seg)) == w.writer.lastSeq
      && Records(WithSegment(w.disk, seg)) == Records(w.disk)
      && (SameName(w.disk, seg.first) ==> Whole(Newest(w.disk)) == 0)
  {
    hide Records, Pow256, Held;
    var d, first := w.disk, w.writer.lastSeq + 1;
    var seg := Segment(first, w.writer.counter, [], HEADER);
    RecordsNumbered(d);
    assert SegmentOk(seg) && seg.recs[..0] == [];
    if d != [] {
      WholeBound(Newest(d));
      assert SegmentOk(Newest(d));
    }
    if SameName(d, first) {
      ReplaceNewest(d, seg);
      ReplaceNewest(d, Newest(d));
      assert WithNewest(d, Newest(d)) == d;
    } else {
      AppendSegment(d, seg);
    }
  }

  lemma OpenKeeps(w: World)
    requires Inv(w) && Enabled(w, Open)
    ensures Inv(Do(w, Open)) && (Firm(w) && LeavesFirm(w, Open) ==> Firm(Do(w, Open)))
  {
    hide DiskOk, Total, Held, Pow256, Records, Whole;
    OpenDisk(w);
    var w' := Do(w, Open);
    forall i | 0 <= i < |w.disk| ensures Durable(w.disk[i], w.marks[i]) <= Durable(w'.disk[i], w'.marks[i]) {
      if i == |w.disk| - 1 && SameName(w.disk, w.writer.lastSeq + 1) {
        NothingDurable(w.disk[i], w.marks[i]);
      }
    }
    HeldFrame(w.disk, w.marks, w'.disk, w'.marks, w.acked);
  }

  lemma NothingDurable(seg: Segment, m: nat)
    requires m <= seg.size && Whole(seg) == 0
    ensures Durable(seg, m) == []
  {
    WholeMonotone(m, seg.size);
  }

  // A segment of whole records takes one more.
  lemma SegmentGrows(seg: Segment, rec: Record)
    requires SegmentOk(seg) && Even(seg) && RecordOk(rec) && rec.globalSeq == seg.first + |seg.recs|
    ensures var seg' := seg.(recs := seg.recs + [rec], size := seg.size + RECORD);
      && SegmentOk(seg') && Even(seg') && Whole(seg') == |seg.recs| + 1 && seg'.recs[..|seg.recs|] == seg.recs
    ensures Whole(seg) == |seg.recs|
  {
  }

  lemma WriteDisk(w: World, kind: byte, payload: seq<byte>)
    requires Inv(w) && Enabled(w, Write(kind, payload))
    ensures var d' := Do(w, Write(kind, payload)).disk;
      && DiskOk(d') && Total(d') == w.writer.lastSeq + 1 && Even(Newest(d'))
      && Records(d') == Records(w.disk) + [Record(w.writer.lastSeq + 1, kind, payload)]
  {
    hide Records, DiskOk, SegmentOk, Whole, WellFormed, Pow256, Total, Held, Marked;
    var d, seg, rec := w.disk, Newest(w.disk), Record(w.writer.lastSeq + 1, kind, payload);
    var seg' := seg.(recs := seg.recs + [rec], size := seg.size + RECORD);
    SegmentAt(d, |d| - 1);
    EvenTotal(d);
    SegmentGrows(seg, rec);
    ReplaceNewest(d, seg');
    ReplaceNewest(d, seg);
    assert WithNewest(d, seg) == d;
    assert seg'.recs[..|seg.recs| + 1] == seg.recs + [rec] && seg.recs[..|seg.recs|] == seg.recs;
    EvenTotal(WithNewest(d, seg'));
  }

  lemma WriteKeeps(w: World, kind: byte, payload: seq<byte>)
    requires Inv(w) && Enabled(w, Write(kind, payload))
    ensures var w' := Do(w, Write(kind, payload)); Inv(w') && (Firm(w) ==> Firm(w'))
  {
    hide Records, DiskOk, Total, Pow256, Held, Durable;
    WriteDisk(w, kind, payload);
    var w' := Do(w, Write(kind, payload));
    DurableGrows(Newest(w.disk), Newest(w'.disk), w.marks[|w.disk| - 1]);
    HeldFrame(w.disk, w.marks, w'.disk, w'.marks, w.acked);
  }

  lemma DurableGrows(seg: Segment, seg': Segment, m: nat)
    requires Even(seg) && seg.recs <= seg'.recs && m <= seg.size
    ensures Durable(seg, m) <= Durable(seg', m)
  {
    WholeMonotone(m, seg.size);
    assert WholeIn(seg.size) == |seg.recs|;
  }

  lemma EvenTotal(d: Disk)
    requires d != [] && Even(Newest(d))
    ensures Total(d) == Newest(d).first - 1 + |Newest(d).recs|
  {
  }

  lemma SyncKeeps(w: World)
    requires Inv(w) && Enabled(w, Sync)
    ensures Inv(Do(w, Sync)) && (Firm(w) ==> Firm(Do(w, Sync)))
  {
    hide DiskOk, Total, Held;
    var w', last := Do(w, Sync), |w.disk| - 1;
    WholeMonotone(w.marks[last], Newest(w.disk).size);
    assert WholeIn(Newest(w.disk).size) == |Newest(w.disk).recs|;
    HeldFrame(w.disk, w.marks, w'.disk, w'.marks, w.acked);
    forall a | a in Newest(w.disk).recs ensures Held(w'.disk, w'.marks, a) {
      NowHeld(w'.disk, w'.marks, a, last);
    }
  }

  lemma NowHeld(d: Disk, marks: seq<nat>, a: Record, i: int)
    requires HeldAt(d, marks, a, i)
    ensures Held(d, marks, a)
  {
  }

  // If all older segments are durable, a crash cuts the newest and no other.
  lemma CrashCuts(w: World, cuts: seq<nat>, durable: seq<nat>)
    requires Inv(w) && Firm(w) && Enabled(w, Crash(cuts, durable)) && w.disk != []
    ensures CutAll(w.disk, cuts) == WithNewest(w.disk, CutTo(Newest(w.disk), cuts[|w.disk| - 1]))
    ensures forall i :: 0 <= i < |w.disk| - 1 ==> durable[i] == cuts[i] == w.disk[i].size
  {
    hide CutTo, Held, Total;
    forall i | 0 <= i < |w.disk| - 1 ensures CutTo(w.disk[i], cuts[i]) == w.disk[i] {
      SegmentAt(w.disk, i);
      CutWhole(w.disk[i]);
    }
  }

  lemma CrashKeeps(w: World, cuts: seq<nat>, durable: seq<nat>)
    requires Inv(w) && Firm(w) && Enabled(w, Crash(cuts, durable))
    ensures Inv(Do(w, Crash(cuts, durable))) && Firm(Do(w, Crash(cuts, durable)))
  {
    hide CutTo, SegmentOk, DiskOk, Held, Total, Whole, Durable;
    if w.disk != [] {
      var d, last := w.disk, |w.disk| - 1;
      CrashCuts(w, cuts, durable);
      SegmentAt(d, last);
      CutOk(Newest(d), cuts[last]);
      CutShape(Newest(d), cuts[last]);
      ReplaceNewest(d, CutTo(Newest(d), cuts[last]));
      CutDurable(Newest(d), w.marks[last], durable[last], cuts[last]);
      HeldFrame(d, w.marks, CutAll(d, cuts), durable, w.acked);
    }
  }

  lemma CutShape(seg: Segment, n: nat)
    ensures CutTo(seg, n).first == seg.first && CutTo(seg, n).counter == seg.counter && CutTo(seg, n).size == n
    ensures Whole(CutTo(seg, n)) == WholeIn(n)
  {
  }

  // Cutting behind the mark keeps what the mark covers.
  lemma CutDurable(seg: Segment, m: nat, m': nat, n: nat)
    requires m <= m' <= n <= seg.size && WellFormed(seg)
    ensures Durable(seg, m) <= Durable(CutTo(seg, n), m')
  {
    hide WellFormed;
    WholeMonotone(m, m');
    WholeMonotone(m', n);
    assert WholeIn(n) <= Reaches(n);
  }

  lemma RecoverKeeps(w: World)
    requires Inv(w) && Enabled(w, Recover)
    ensures Inv(Do(w, Recover)) && (Firm(w) ==> Firm(Do(w, Recover)))
    ensures Records(Do(w, Recover).disk) == Records(w.disk)
  {
    hide Records, DiskOk, SegmentOk, Whole, WellFormed, Pow256, Total, Trimmed, CutTo, Held, Durable;
    var d := w.disk;
    if d != [] {
      var last := |d| - 1;
      SegmentAt(d, last);
      EvenOrTorn(Newest(d));
      if IsTorn(d) {
        TrimNewest(d);
        TrimFacts(Newest(d));
        TrimDurable(Newest(d), w.marks[last]);
        var w' := Do(w, Recover);
        HeldFrame(d, w.marks, w'.disk, w'.marks, w.acked);
      }
    }
  }

  lemma TrimDurable(seg: Segment, m: nat)
    requires SegmentOk(seg) && seg.size >= HEADER && m <= seg.size
    ensures var t := Trimmed(seg); Durable(seg, m) <= Durable(t, if m < t.size then m else t.size)
  {
    hide Pow256;
    WholeMonotone(m, seg.size);
    WholeBound(seg);
    TrimEven(seg);
  }

  lemma EvenOrTorn(seg: Segment)
    requires WellFormed(seg)
    ensures seg.size < HEADER || Even(seg) || (seg.size - HEADER) % RECORD != 0
  {
  }

  lemma TrimNewest(d: Disk)
    requires DiskOk(d) && IsTorn(d)
    ensures var seg := Trimmed(Newest(d));
      var d' := WithNewest(d, seg);
      && DiskOk(d') && Newest(d') == seg && Even(seg) && Records(d') == Records(d) && Total(d') == Total(d)
  {
    hide Records, DiskOk, SegmentOk, WellFormed, Trimmed, Pow256, Whole;
    var seg := Newest(d);
    SegmentAt(d, |d| - 1);
    TrimFacts(seg);
    TrimEven(seg);
    ReplaceNewest(d, Trimmed(seg));
    ReplaceNewest(d, seg);
    assert WithNewest(d, seg) == d;
  }

  lemma TrimFacts(seg: Segment)
    requires SegmentOk(seg) && seg.size >= HEADER
    ensures SegmentOk(Trimmed(seg)) && Trimmed(seg).first == seg.first && Whole(Trimmed(seg)) == Whole(seg)
    ensures Trimmed(seg).size == HEADER + RECORD * Whole(seg) <= seg.size
  {
    hide Pow256;
    WholeBound(seg);
    CutOk(seg, HEADER + RECORD * Whole(seg));
  }

  lemma TrimEven(seg: Segment)
    requires SegmentOk(seg) && seg.size >= HEADER
    ensures Even(Trimmed(seg)) && Trimmed(seg).counter == seg.counter && Trimmed(seg).recs == seg.recs[..Whole(seg)]
    ensures Whole(seg) <= |seg.recs|
  {
    WholeBound(seg);
  }

  lemma StepKeeps(w: World, step: Step)
    requires Inv(w) && Firm(w) && Enabled(w, step)
    ensures Inv(Do(w, step)) && (LeavesFirm(w, step) ==> Firm(Do(w, step)))
  {
    hide Inv, Do, Enabled, Firm, LeavesFirm;
    match step
    case Open => OpenKeeps(w);
    case Write(kind, payload) => WriteKeeps(w, kind, payload);
    case Sync => SyncKeeps(w);
    case Crash(cuts, durable) => CrashKeeps(w, cuts, durable);
    case Recover => RecoverKeeps(w);
  }

  // ---------------------------------------------------------------------------------------------
  // Whole histories
  // ---------------------------------------------------------------------------------------------

  const Fresh := World([], [], Down, {})

  // From an empty directory; a step that is not possible does not happen.
  ghost function After(steps: seq<Step>): World {
    if steps == [] then Fresh
    else
      var w := After(steps[..|steps| - 1]);
      if Enabled(w, steps[|steps| - 1]) then Do(w, steps[|steps| - 1]) else w
  }

  // Whatever happened, it happened to a directory whose older segments were durable.
  ghost predicate FirmUntil(steps: seq<Step>) {
    forall k :: 0 <= k < |steps| ==> Firm(After(steps[..k]))
  }

  lemma InitInv()
    ensures Inv(Fresh) && Firm(Fresh)
  {
  }

  lemma {:induction false} AfterInv(steps: seq<Step>)
    requires FirmUntil(steps)
    ensures Inv(After(steps))
  {
    hide Inv, Do, Enabled, Firm;
    if steps == [] {
      InitInv();
    } else {
      var most := steps[..|steps| - 1];
      assert forall k :: 0 <= k < |most| ==> most[..k] == steps[..k];
      AfterInv(most);
      assert Firm(After(most));
      if Enabled(After(most), steps[|steps| - 1]) {
        StepKeeps(After(most), steps[|steps| - 1]);
      }
    }
  }

  /** A history of appends, rolls, syncs, crashes and recoveries in which no crash and no restart met an older segment
      that was not durable leaves a journal that reads back as records 1 to n, with every record ever acknowledged
      among them, unchanged. */
  lemma JournalSurvives(steps: seq<Step>)
    requires FirmUntil(steps)
    ensures var w := After(steps);
      && Intact(w.disk, w.acked)
      && (w.writer.Up? ==> w.writer.lastSeq == |ReadAll(w.disk, NewReader(w.disk)).0|)
  {
    hide After, Intact, ReadAll, Records, FirmUntil;
    AfterInv(steps);
    InvIntact(After(steps));
    RecordsNumbered(After(steps).disk);
  }

  // Every crash is a loss of power: what is left of a file is what the disk has.
  ghost predicate OnlyPowerLoss(steps: seq<Step>) {
    forall k :: 0 <= k < |steps| && steps[k].Crash? ==> steps[k].cuts == steps[k].durable
  }

  // A file no writer has open is durable.
  ghost predicate Settled(w: World) {
    |w.marks| == |w.disk| && (w.disk != [] && (w.writer.Down? || !w.writer.isOpen) ==> w.marks[|w.disk| - 1] == Newest(w.disk).size)
  }

  lemma SettledStep(w: World, step: Step)
    requires Inv(w) && Settled(w) && Enabled(w, step) && (step.Crash? ==> step.cuts == step.durable)
    ensures Settled(Do(w, step)) && LeavesFirm(w, step)
  {
    hide DiskOk, Held, Total, Trimmed, Pow256;
    match step
    case Crash(cuts, _) =>
      if w.disk != [] {
        CutShape(Newest(w.disk), cuts[|w.disk| - 1]);
      }
    case _ =>
  }

  lemma SettledInit()
    ensures Settled(Fresh)
  {
  }

  lemma {:induction false} PowerLossFirm(steps: seq<Step>)
    requires OnlyPowerLoss(steps)
    ensures FirmUntil(steps) && Inv(After(steps)) && Firm(After(steps)) && Settled(After(steps))
  {
    hide Inv, Do, Enabled, Firm, Settled, LeavesFirm;
    if steps == [] {
      InitInv();
      SettledInit();
    } else {
      var most, step := steps[..|steps| - 1], steps[|steps| - 1];
      PowerLossFirm(most);
      forall k | 0 <= k < |steps| ensures Firm(After(steps[..k])) {
        assert k < |most| ==> most[..k] == steps[..k];
      }
      if Enabled(After(most), step) {
        StepKeeps(After(most), step);
        SettledStep(After(most), step);
      }
    }
  }

  /** If machines fail only by losing power, whatever the bytes past each file's last fsync that are lost, no
      acknowledged record ever is. */
  lemma PowerLossSurvives(steps: seq<Step>)
    requires OnlyPowerLoss(steps)
    ensures Intact(After(steps).disk, After(steps).acked)
  {
    hide After, Intact, Inv, Firm, Settled, FirmUntil;
    PowerLossFirm(steps);
    InvIntact(After(steps));
  }

  // ---------------------------------------------------------------------------------------------
  // When a crash can break the journal
  // ---------------------------------------------------------------------------------------------

  // The last byte of segment `i` goes; nothing else does.
  function LastByteOff(d: Disk, i: nat): (cuts: seq<nat>)
    requires i < |d| && d[i].size > 0
    ensures |cuts| == |d| && forall k :: 0 <= k < |d| ==> cuts[k] == if k == i then d[i].size - 1 else d[k].size
  {
    seq(|d|, k requires 0 <= k < |d| => if k == i then d[i].size - 1 else d[k].size)
  }

  // A segment that has lost its last byte ends the reading, whatever follows.
  lemma LostByte(d: Disk, i: nat)
    requires DiskOk(d) && i < |d| - 1
    ensures d[i].size > 0 && !Intact(CutAll(d, LastByteOff(d, i)), {})
  {
    hide DiskOk, ReadAll, Records, CutTo;
    SegmentAt(d, i);
    SealedBelow(d, i);
    var d', cut := CutAll(d, LastByteOff(d, i)), CutTo(d[i], d[i].size - 1);
    PrefixOk(d, i + 1);
    var front := d[..i + 1];
    CutOk(d[i], d[i].size - 1);
    CutShape(d[i], d[i].size - 1);
    ReplaceNewest(front, cut);
    var p := WithNewest(front, cut);
    forall k | 0 <= k < i ensures d'[k] == d[k] {
      SegmentAt(d, k);
      CutWhole(d[k]);
    }
    assert p <= d';
    TornOff(d[i]);
    ReadsSound(p);
    if Readable(d') {
      ReadAllMore(p, d', NewReader(p));
    }
  }

  lemma TornOff(seg: Segment)
    requires Sealed(seg)
    ensures seg.size - 1 >= HEADER && (seg.size - 1 - HEADER) % RECORD != 0
  {
    assert (RECORD * |seg.recs| - 1) == RECORD * (|seg.recs| - 1) + (RECORD - 1);
  }

  /** Exactly when every older segment is durable to its last byte is the journal safe from the next crash, wherever
      that cuts each file behind its own last fsync. */
  lemma CrashSafeIff(w: World)
    requires Inv(w)
    ensures (forall cuts, durable :: Enabled(w, Crash(cuts, durable)) ==> Intact(Do(w, Crash(cuts, durable)).disk, w.acked))
            <==> Firm(w)
  {
    hide Intact, CutTo, DiskOk, Held, WriterOk;
    if Firm(w) {
      forall cuts, durable | Enabled(w, Crash(cuts, durable)) ensures Intact(Do(w, Crash(cuts, durable)).disk, w.acked) {
        CrashKeeps(w, cuts, durable);
        InvIntact(Do(w, Crash(cuts, durable)));
      }
    } else {
      var i :| 0 <= i < |w.disk| - 1 && w.marks[i] != w.disk[i].size;
      LostByte(w.disk, i);
      var cuts := LastByteOff(w.disk, i);
      assert Enabled(w, Crash(cuts, w.marks));
      FewerAcked(CutAll(w.disk, cuts), w.acked);
    }
  }

  lemma FewerAcked(d: Disk, acked: set<Record>)
    ensures Intact(d, acked) ==> Intact(d, {})
  {
  }
}
