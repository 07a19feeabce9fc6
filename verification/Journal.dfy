/** A journal directory as a sequence of segment files, and reading it from front to back. */
module Journal {
  import opened Types
  import opened Bytes
  import opened JournalFormat

  // A segment file: the first `size` bytes of its header and records. The last record may be cut.
  datatype Segment = Segment(first: nat, counter: nat, recs: seq<Record>, size: nat)

  // The directory, in name order, which is the order of the first numbers.
  type Disk = seq<Segment>

  function Flat(recs: seq<Record>): (s: seq<byte>)
    requires forall i :: 0 <= i < |recs| ==> |recs[i].payload| == PAYLOAD
    ensures |s| == RECORD * |recs|
  {
    if recs == [] then [] else Flat(recs[..|recs| - 1]) + EncodeRecord(recs[|recs| - 1])
  }

  // How many records are there from the first byte to the last.
  function Whole(seg: Segment): nat {
    if seg.size < HEADER then 0 else (seg.size - HEADER) / RECORD
  }

  // Well-formed contents, whatever their numbers.
  ghost predicate WellFormed(seg: Segment) {
    && seg.counter < Pow256(8)
    && (forall j :: 0 <= j < |seg.recs| ==> RecordOk(seg.recs[j]))
    && seg.size <= HEADER + RECORD * |seg.recs|
    && (seg.recs != [] ==> HEADER + RECORD * (|seg.recs| - 1) < seg.size)
  }

  ghost predicate SegmentOk(seg: Segment) {
    1 <= seg.first && WellFormed(seg) && forall j :: 0 <= j < |seg.recs| ==> seg.recs[j].globalSeq == seg.first + j
  }

  ghost predicate Sealed(seg: Segment) {
    seg.recs != [] && seg.size == HEADER + RECORD * |seg.recs|
  }

  function FileBytes(seg: Segment): (s: seq<byte>)
    requires forall j :: 0 <= j < |seg.recs| ==> |seg.recs[j].payload| == PAYLOAD
    requires seg.size <= HEADER + RECORD * |seg.recs|
    ensures |s| == seg.size
  {
    (EncodeHeader(seg.first, seg.counter) + Flat(seg.recs))[..seg.size]
  }

  /** All segments but the newest are complete, and the numbering runs on from one to the next. */
  ghost predicate DiskOk(d: Disk) {
    && (forall i :: 0 <= i < |d| ==> SegmentOk(d[i]))
    && (d != [] ==> d[0].first == 1)
    && (forall i :: 0 <= i < |d| - 1 ==> Sealed(d[i]) && d[i + 1].first == d[i].first + |d[i].recs|)
  }

  // The number of the last complete record.
  function Total(d: Disk): int {
    if d == [] then 0 else d[|d| - 1].first - 1 + Whole(d[|d| - 1])
  }

  // Every complete record, in order.
  function Records(d: Disk): seq<Record> {
    if d == [] then []
    else
      var seg := d[|d| - 1];
      Records(d[..|d| - 1]) + (if Whole(seg) <= |seg.recs| then seg.recs[..Whole(seg)] else seg.recs)
  }

  // ---------------------------------------------------------------------------------------------
  // Segments as bytes
  // ---------------------------------------------------------------------------------------------

  lemma WholeBound(seg: Segment)
    requires WellFormed(seg)
    ensures Whole(seg) <= |seg.recs| && (seg.recs != [] ==> |seg.recs| - 1 <= Whole(seg))
    ensures Sealed(seg) ==> Whole(seg) == |seg.recs|
    ensures seg.size >= HEADER ==> HEADER + RECORD * Whole(seg) <= seg.size < HEADER + RECORD * Whole(seg) + RECORD
    ensures Whole(seg) < |seg.recs| ==> seg.size < HEADER + RECORD * |seg.recs|
  {
  }

  lemma {:induction false} FlatAt(recs: seq<Record>, i: nat)
    requires i < |recs| && forall j :: 0 <= j < |recs| ==> |recs[j].payload| == PAYLOAD
    ensures RECORD * i + RECORD <= |Flat(recs)| && Flat(recs)[RECORD * i..RECORD * i + RECORD] == EncodeRecord(recs[i])
    decreases |recs|
  {
    hide EncodeRecord;
    var most := recs[..|recs| - 1];
    if i < |recs| - 1 {
      FlatAt(most, i);
      assert Flat(recs)[RECORD * i..RECORD * i + RECORD] == Flat(most)[RECORD * i..RECORD * i + RECORD];
    }
  }

  /** What the reader finds at a record boundary of a segment: the record, the end, or a torn tail. */
  lemma SegmentReads(seg: Segment, size: nat, j: nat, lastGood: int)
    requires WellFormed(seg) && size <= seg.size && HEADER + RECORD * j <= size
    ensures j <= |seg.recs|
    ensures ReadAt(FileBytes(seg)[..size], HEADER + RECORD * j, lastGood) ==
      if HEADER + RECORD * j == size then EndOfSegment
      else if size < HEADER + RECORD * j + RECORD then Torn
      else if seg.recs[j].globalSeq == lastGood + 1 then Got(seg.recs[j]) else Gap(seg.recs[j])
  {
    hide ReadAt, EncodeRecord, EncodeHeader, Flat;
    var offset, file := HEADER + RECORD * j, FileBytes(seg)[..size];
    if offset == size {
      AtEnd(file, lastGood);
    } else if size < offset + RECORD {
      CutReads(file, offset, lastGood);
    } else {
      FlatAt(seg.recs, j);
      var whole := EncodeHeader(seg.first, seg.counter) + Flat(seg.recs);
      assert file == whole[..size];
      assert file[offset..offset + RECORD] == whole[offset..offset + RECORD];
      assert whole[offset..offset + RECORD] == Flat(seg.recs)[RECORD * j..RECORD * j + RECORD];
      RecordReads(file, offset, seg.recs[j], lastGood);
    }
  }

  lemma AtEnd(file: seq<byte>, lastGood: int)
    ensures ReadAt(file, |file|, lastGood) == EndOfSegment
  {
  }

  lemma SegmentHeader(seg: Segment)
    requires WellFormed(seg) && seg.size >= HEADER
    ensures DecodeHeader(FileBytes(seg)[..HEADER]) == Some(seg.counter)
  {
    hide EncodeHeader, Flat, DecodeHeader;
    var whole := EncodeHeader(seg.first, seg.counter) + Flat(seg.recs);
    assert whole[..seg.size][..HEADER] == EncodeHeader(seg.first, seg.counter);
    HeaderReads(seg.first, seg.counter);
  }

  // ---------------------------------------------------------------------------------------------
  // The records of a directory
  // ---------------------------------------------------------------------------------------------

  lemma FrontOk(d: Disk)
    requires DiskOk(d) && d != []
    ensures DiskOk(d[..|d| - 1])
    ensures Total(d[..|d| - 1]) == d[|d| - 1].first - 1
  {
    var most := d[..|d| - 1];
    if most != [] {
      WholeBound(most[|most| - 1]);
      assert d[|d| - 2 + 1] == d[|d| - 1];
    }
  }

  /** The complete records are numbered 1, 2, 3, ... without a gap or a repeat. */
  lemma {:induction false} RecordsNumbered(d: Disk)
    requires DiskOk(d)
    ensures |Records(d)| == Total(d)
    ensures forall n :: 0 <= n < |Records(d)| ==> Records(d)[n].globalSeq == n + 1
  {
    if d != [] {
      FrontOk(d);
      RecordsNumbered(d[..|d| - 1]);
      WholeBound(d[|d| - 1]);
    }
  }

  lemma {:induction false} RecordsAt(d: Disk, i: nat, j: nat)
    requires DiskOk(d) && i < |d| && j < Whole(d[i])
    ensures j < |d[i].recs| && 0 <= d[i].first - 1 + j < |Records(d)| && Records(d)[d[i].first - 1 + j] == d[i].recs[j]
    decreases |d|
  {
    var most := d[..|d| - 1];
    FrontOk(d);
    RecordsNumbered(most);
    WholeBound(d[i]);
    if i < |d| - 1 {
      RecordsAt(most, i, j);
    }
  }

  // ---------------------------------------------------------------------------------------------
  // The reader
  // ---------------------------------------------------------------------------------------------

  // `known` segments are listed, `next` is the next to open. `offset`, `counter` and `lastGood` keep their values when
  // the segment is closed; `current` names the segment they belong to.
  datatype Reader = Reader(known: nat, next: nat, isOpen: bool, current: int, fileSize: nat, offset: nat, counter: nat, lastGood: int)

  function NewReader(d: Disk): Reader {
    Reader(|d|, 0, false, -1, 0, 0, 0, 0)
  }

  datatype Result =
    | Delivered(record: Record)
    | EndOfJournal
    | TruncatedTail
    | Corrupt(record: Record)

  // A segment that can be opened has a complete, valid header.
  predicate Opens(seg: Segment)
    requires (forall j :: 0 <= j < |seg.recs| ==> |seg.recs[j].payload| == PAYLOAD) && seg.size <= HEADER + RECORD * |seg.recs|
  {
    seg.size >= HEADER && DecodeHeader(FileBytes(seg)[..HEADER]).Some?
  }

  predicate Readable(d: Disk) {
    forall i :: 0 <= i < |d| ==>
      (forall j :: 0 <= j < |d[i].recs| ==> |d[i].recs[j].payload| == PAYLOAD) && d[i].size <= HEADER + RECORD * |d[i].recs|
  }

  function OpenAt(d: Disk, r: Reader, i: nat): Reader
    requires Readable(d) && i < |d| && Opens(d[i])
  {
    r.(isOpen := true, current := i, fileSize := d[i].size, offset := HEADER,
       counter := DecodeHeader(FileBytes(d[i])[..HEADER]).value)
  }

  // Skip forward to the next segment that opens.
  function OpenNext(d: Disk, r: Reader): Reader
    requires Readable(d) && r.known <= |d|
    decreases r.known - r.next
  {
    if r.next >= r.known then r
    else if Opens(d[r.next]) then OpenAt(d, r, r.next).(next := r.next + 1)
    else OpenNext(d, r.(next := r.next + 1))
  }

  predicate ReaderOk(d: Disk, r: Reader) {
    && Readable(d) && r.known <= |d| && r.next <= r.known
    && (r.isOpen ==> 0 <= r.current < |d| && r.fileSize <= d[r.current].size)
  }

  // `next`: the record after the last one read, across segments.
  function Next(d: Disk, r: Reader): (Reader, Result)
    requires ReaderOk(d, r)
    decreases r.known - r.next, r.isOpen
  {
    if !r.isOpen then
      var r' := OpenNext(d, r);
      if !r'.isOpen then (r', EndOfJournal)
      else
        OpenNextProgress(d, r);
        NextInSegment(d, r')
    else NextInSegment(d, r)
  }

  function NextInSegment(d: Disk, r: Reader): (Reader, Result)
    requires ReaderOk(d, r) && r.isOpen
    decreases r.known - r.next, r.isOpen, 0
  {
    match ReadAt(FileBytes(d[r.current])[..r.fileSize], r.offset, r.lastGood)
    case EndOfSegment => Next(d, r.(isOpen := false))
    case Torn => (r, TruncatedTail)
    case Gap(rec) => (r, Corrupt(rec))
    case Got(rec) => (r.(offset := r.offset + RECORD, lastGood := rec.globalSeq), Delivered(rec))
  }

  lemma OpenNextProgress(d: Disk, r: Reader)
    requires Readable(d) && r.known <= |d| && r.next <= r.known && !r.isOpen && OpenNext(d, r).isOpen
    ensures var r' := OpenNext(d, r);
      ReaderOk(d, r') && r'.known == r.known && r.next < r'.next
    decreases r.known - r.next
  {
    if r.next < r.known && !Opens(d[r.next]) {
      OpenNextProgress(d, r.(next := r.next + 1));
    }
  }

  // ---------------------------------------------------------------------------------------------
  // The reader delivers exactly the records
  // ---------------------------------------------------------------------------------------------

  // A record boundary, and the number of records before it.
  predicate OnBoundary(offset: int) {
    offset >= HEADER && (offset - HEADER) % RECORD == 0
  }

  function PlaceOf(offset: int): int {
    (offset - HEADER) / RECORD
  }

  lemma Boundary(offset: int)
    requires OnBoundary(offset)
    ensures offset == HEADER + RECORD * PlaceOf(offset) && PlaceOf(offset) >= 0
    ensures OnBoundary(offset + RECORD) && PlaceOf(offset + RECORD) == PlaceOf(offset) + 1
  {
  }

  lemma FirstBoundary()
    ensures OnBoundary(HEADER) && PlaceOf(HEADER) == 0
  {
  }

  // The reader's mark: right behind record `lastGood`, which is where `offset` points in the current segment.
  ghost predicate Mark(d: Disk, r: Reader) {
    if r.current == -1 then r.offset == 0 && r.lastGood == 0
    else
      && 0 <= r.current < |d| && r.counter == d[r.current].counter
      && HEADER <= r.offset <= d[r.current].size && OnBoundary(r.offset)
      && r.lastGood == d[r.current].first - 1 + PlaceOf(r.offset)
  }

  // The mark, with an up-to-date file size, and nothing skipped; a closed segment was read to its end.
  ghost predicate Ready(d: Disk, r: Reader) {
    && ReaderOk(d, r) && Mark(d, r) && r.next == r.current + 1
    && (r.isOpen ==> r.current >= 0 && r.offset <= r.fileSize == d[r.current].size)
    && (!r.isOpen && r.current >= 0 ==> r.offset == d[r.current].size)
  }

  lemma DiskReadable(d: Disk)
    requires DiskOk(d)
    ensures Readable(d)
  {
    forall i | 0 <= i < |d| ensures (forall j :: 0 <= j < |d[i].recs| ==> |d[i].recs[j].payload| == PAYLOAD) {
      assert SegmentOk(d[i]);
    }
  }

  lemma OpensIff(d: Disk, i: nat)
    requires DiskOk(d) && Readable(d) && i < |d|
    ensures Opens(d[i]) <==> d[i].size >= HEADER
    ensures d[i].size >= HEADER ==> DecodeHeader(FileBytes(d[i])[..HEADER]) == Some(d[i].counter)
    ensures d[i].size < HEADER ==> i == |d| - 1 && d[i].recs == []
  {
    hide DecodeHeader, FileBytes;
    assert SegmentOk(d[i]);
    if d[i].size >= HEADER {
      SegmentHeader(d[i]);
    }
  }

  // The first `n` segments have complete headers.
  ghost predicate Headed(d: Disk, n: nat) {
    n <= |d| && forall i :: 0 <= i < n ==> d[i].size >= HEADER
  }

  // The number of the last complete record in the first `n` segments.
  function KnownTotal(d: Disk, n: nat): int
    requires n <= |d|
  {
    if n == 0 then 0 else d[n - 1].first - 1 + Whole(d[n - 1])
  }

  // What the next call must return from here.
  ghost predicate Exact(d: Disk, r: Reader, r': Reader, res: Result) {
    && Mark(d, r') && r'.known == r.known && r'.next <= r'.known
    && match res
       case Delivered(rec) =>
         && 0 <= r.lastGood < |Records(d)| && rec == Records(d)[r.lastGood]
         && r'.lastGood == r.lastGood + 1 && r'.isOpen && Ready(d, r')
       case EndOfJournal =>
         && r'.lastGood == r.lastGood && !r'.isOpen && (r.known == |d| ==> r.lastGood == Total(d))
         && (Headed(d, r.known) ==> Ready(d, r') && r'.next == r'.known && r.lastGood == KnownTotal(d, r.known))
       case TruncatedTail =>
         && r'.lastGood == r.lastGood == Total(d) && r'.isOpen && Ready(d, r') && 0 <= r'.current == |d| - 1
         && r'.offset == HEADER + RECORD * Whole(d[|d| - 1]) < d[|d| - 1].size
       case Corrupt(_) => false
  }

  // Only the newest segment can be torn.
  lemma SealedBelow(d: Disk, i: nat)
    requires DiskOk(d) && i < |d|
    ensures i == |d| - 1 || Sealed(d[i])
  {
  }

  lemma SegmentAt(d: Disk, i: nat)
    requires DiskOk(d) && i < |d|
    ensures SegmentOk(d[i]) && WellFormed(d[i])
    ensures forall j :: 0 <= j < |d[i].recs| ==> d[i].recs[j].globalSeq == d[i].first + j
  {
  }

  // What is read from an open segment is what its bytes say at the mark.
  lemma ReadMark(d: Disk, r: Reader)
    requires DiskOk(d) && Ready(d, r) && r.isOpen
    ensures var seg, j := d[r.current], PlaceOf(r.offset);
      && 0 <= j <= |seg.recs| && Whole(seg) <= |seg.recs| && (r.offset + RECORD <= seg.size ==> j < Whole(seg))
      && (r.offset + RECORD > seg.size ==> j == Whole(seg))
      && ReadAt(FileBytes(seg)[..r.fileSize], r.offset, r.lastGood) ==
           if r.offset == seg.size then EndOfSegment
           else if seg.size < r.offset + RECORD then Torn
           else Got(seg.recs[j])
  {
    hide ReadAt, FileBytes, Opens, DiskOk, OnBoundary, PlaceOf, Pow256, WellFormed, SegmentOk;
    var seg := d[r.current];
    SegmentAt(d, r.current);
    WholeBound(seg);
    Boundary(r.offset);
    SegmentReads(seg, seg.size, PlaceOf(r.offset), r.lastGood);
  }

  // A whole record lies at the mark.
  lemma AtRecord(d: Disk, r: Reader)
    requires DiskOk(d) && Ready(d, r) && r.isOpen && r.offset + RECORD <= d[r.current].size
    ensures 0 <= r.lastGood < |Records(d)|
    ensures NextInSegment(d, r) == (r.(offset := r.offset + RECORD, lastGood := r.lastGood + 1), Delivered(Records(d)[r.lastGood]))
  {
    hide ReadAt, FileBytes, Records, Opens, Next, DiskOk, OnBoundary, PlaceOf, Pow256, WellFormed, Whole, SegmentOk, Readable;
    ReadMark(d, r);
    SegmentAt(d, r.current);
    RecordsAt(d, r.current, PlaceOf(r.offset));
  }

  // Nothing whole is left in the segment.
  lemma AtTail(d: Disk, r: Reader)
    requires DiskOk(d) && Ready(d, r) && r.isOpen && r.offset + RECORD > d[r.current].size
    ensures NextInSegment(d, r) == if r.offset == d[r.current].size then Next(d, r.(isOpen := false)) else (r, TruncatedTail)
    ensures PlaceOf(r.offset) == Whole(d[r.current])
  {
    hide ReadAt, FileBytes, Opens, Next, DiskOk, OnBoundary, PlaceOf, Pow256, WellFormed, Whole, SegmentOk, Readable;
    ReadMark(d, r);
  }

  lemma InSegment(d: Disk, r: Reader)
    requires DiskOk(d) && Ready(d, r) && r.isOpen
    requires Ready(d, r.(isOpen := false)) ==> Exact(d, r.(isOpen := false), Next(d, r.(isOpen := false)).0, Next(d, r.(isOpen := false)).1)
    ensures Exact(d, r, NextInSegment(d, r).0, NextInSegment(d, r).1)
  {
    hide FileBytes, Records, Opens, Next, NextInSegment, OnBoundary, PlaceOf, Whole, SegmentOk;
    var seg := d[r.current];
    Boundary(r.offset);
    SealedBelow(d, r.current);
    if r.offset + RECORD <= seg.size {
      AtRecord(d, r);
    } else {
      AtTail(d, r);
      TailOfSealed(d, r.current);
      if r.offset == seg.size {
        ExactFrom(d, r, r.(isOpen := false), NextInSegment(d, r).0, NextInSegment(d, r).1);
      }
    }
  }

  lemma TailOfSealed(d: Disk, i: nat)
    requires DiskOk(d) && i < |d|
    ensures Sealed(d[i]) ==> d[i].size == HEADER + RECORD * Whole(d[i])
  {
    WholeBound(d[i]);
  }

  /** From a fresh reader or after any delivered record, `next` delivers the next record of the journal if there is
      one, and otherwise says so; it never reports corruption, skips a record or delivers one twice. */
  lemma {:induction false} NextExact(d: Disk, r: Reader)
    requires DiskOk(d) && Ready(d, r)
    ensures Exact(d, r, Next(d, r).0, Next(d, r).1)
    decreases r.known - r.next, r.isOpen
  {
    hide Exact, FileBytes, Opens, OpenNext, Records, Mark, DiskOk;
    if r.isOpen {
      if Ready(d, r.(isOpen := false)) {
        NextExact(d, r.(isOpen := false));
      }
      InSegment(d, r);
    } else {
      var r1 := OpenNext(d, r);
      Opening(d, r);
      if r1.isOpen {
        if Ready(d, r1.(isOpen := false)) {
          NextExact(d, r1.(isOpen := false));
        }
        InSegment(d, r1);
        ExactFrom(d, r, r1, Next(d, r).0, Next(d, r).1);
      }
    }
  }

  lemma ExactFrom(d: Disk, r: Reader, r1: Reader, r': Reader, res: Result)
    requires Exact(d, r1, r', res) && r1.known == r.known && r1.lastGood == r.lastGood
    ensures Exact(d, r, r', res)
  {
  }

  // Opening the next segment keeps the place; if there is none, everything known has been read.
  lemma Opening(d: Disk, r: Reader)
    requires DiskOk(d) && Ready(d, r) && !r.isOpen
    ensures var r1 := OpenNext(d, r);
      && r1.known == r.known && r1.lastGood == r.lastGood
      && (r1.isOpen ==> Ready(d, r1) && r.next < r1.next)
      && (!r1.isOpen ==> Exact(d, r, r1, EndOfJournal))
  {
    hide FileBytes, Opens, Records, Pow256, OnBoundary, PlaceOf;
    FirstBoundary();
    if r.current >= 0 {
      Boundary(r.offset);
      WholeBound(d[r.current]);
      assert SegmentOk(d[r.current]);
    }
    if r.next < r.known {
      OpensIff(d, r.next);
      assert SegmentOk(d[r.next]);
      assert r.current >= 0 ==> Sealed(d[r.current]) && d[r.current + 1].first == d[r.current].first + |d[r.current].recs|;
      if d[r.next].size < HEADER {
        assert OpenNext(d, r) == OpenNext(d, r.(next := r.next + 1)) == r.(next := r.next + 1);
      }
    }
  }

  // ---------------------------------------------------------------------------------------------
  // The code
  // ---------------------------------------------------------------------------------------------

  /** The reader object over a directory that does not change while it reads. */
  class JournalReader {
    const disk: Disk
    var known: nat
    var nextSegment: nat
    var isOpen: bool
    var current: int
    var fileSize: nat
    var offset: nat
    var counter: nat
    var lastGood: int

    ghost function State(): Reader
      reads this
    {
      Reader(known, nextSegment, isOpen, current, fileSize, offset, counter, lastGood)
    }

    constructor (d: Disk)
      ensures disk == d && State() == NewReader(d)
    {
      disk := d;
      known, nextSegment, isOpen, current := |d|, 0, false, -1;
      fileSize, offset, counter, lastGood := 0, 0, 0, 0;
    }

    method OpenNextSegment() returns (ok: bool)
      requires Readable(disk) && known <= |disk| && !isOpen
      modifies this
      ensures State() == OpenNext(disk, old(State())) && ok == isOpen
    {
      hide FileBytes, DecodeHeader;
      while nextSegment < known
        invariant known <= |disk| && !isOpen
        invariant OpenNext(disk, State()) == OpenNext(disk, old(State()))
        decreases known - nextSegment
      {
        var i := nextSegment;
        nextSegment := nextSegment + 1;
        if disk[i].size >= HEADER {
          var h := DecodeHeader(FileBytes(disk[i])[..HEADER]);
          if h.Some? {
            isOpen, current, fileSize, offset, counter := true, i, disk[i].size, HEADER, h.value;
            return true;
          }
        }
      }
      return false;
    }

    method ReadNext() returns (res: Result)
      requires ReaderOk(disk, State())
      modifies this
      ensures (State(), res) == Next(disk, old(State()))
    {
      hide FileBytes, OpenNext, Opens, ReadAt, Pow256;
      while true
        invariant ReaderOk(disk, State()) && Next(disk, State()) == Next(disk, old(State()))
        decreases known - nextSegment, isOpen
      {
        if !isOpen {
          ghost var r := State();
          var ok := OpenNextSegment();
          if !ok {
            return EndOfJournal;
          }
          OpenNextProgress(disk, r);
        }
        match ReadAt(FileBytes(disk[current])[..fileSize], offset, lastGood) {
          case EndOfSegment =>
            isOpen := false;
          case Torn =>
            return TruncatedTail;
          case Gap(rec) =>
            return Corrupt(rec);
          case Got(rec) =>
            offset, lastGood := offset + RECORD, rec.globalSeq;
            return Delivered(rec);
        }
      }
    }
  }
}
