/** Reading a journal from a given place until there is no more to deliver, whatever the directory holds. */
module Readings {
  import opened Types
  import opened Bytes
  import opened JournalFormat
  import opened Journal

  // ---------------------------------------------------------------------------------------------
  // One call after the other
  // ---------------------------------------------------------------------------------------------

  // What lies at the reader's place.
  function Found(d: Disk, r: Reader): ReadOne
    requires ReaderOk(d, r) && r.isOpen
  {
    ReadAt(FileBytes(d[r.current])[..r.fileSize], r.offset, r.lastGood)
  }

  /** A call that delivers a record leaves the reader further on. */
  lemma {:induction false} NextAdvances(d: Disk, r: Reader)
    requires ReaderOk(d, r)
    ensures var r' := Next(d, r).0;
      && ReaderOk(d, r') && r'.known == r.known && r.next <= r'.next
      && (Next(d, r).1.Delivered? ==>
            r'.isOpen && (r'.next > r.next || (r.isOpen && r.offset < r'.offset <= r'.fileSize == r.fileSize)))
      && (Next(d, r).1.EndOfJournal? ==> !r'.isOpen && r'.next == r'.known)
    decreases r.known - r.next, r.isOpen
  {
    hide FileBytes, Opens, OpenNext, Readable;
    if r.isOpen {
      Within(d, r);
      if Found(d, r).EndOfSegment? {
        NextAdvances(d, r.(isOpen := false));
      }
    } else {
      var r1 := OpenNext(d, r);
      if r1.isOpen {
        OpenNextProgress(d, r);
        Within(d, r1);
        if Found(d, r1).EndOfSegment? {
          NextAdvances(d, r1.(isOpen := false));
        }
      } else {
        NoneOpens(d, r);
      }
    }
  }

  lemma Within(d: Disk, r: Reader)
    requires ReaderOk(d, r) && r.isOpen
    ensures Found(d, r).Got? ==> r.offset + RECORD <= r.fileSize
  {
  }

  lemma {:induction false} NoneOpens(d: Disk, r: Reader)
    requires Readable(d) && r.known <= |d| && r.next <= r.known && !r.isOpen && !OpenNext(d, r).isOpen
    ensures OpenNext(d, r) == r.(next := r.known)
    decreases r.known - r.next
  {
    if r.next < r.known {
      NoneOpens(d, r.(next := r.next + 1));
    }
  }

  // Everything `next` delivers from here, where the reader then stands, and what it says.
  function ReadAll(d: Disk, r: Reader): (all: (seq<Record>, Reader, Result))
    requires ReaderOk(d, r)
    ensures !all.2.Delivered?
    decreases r.known - r.next, if r.isOpen then r.fileSize - r.offset else 0
  {
    NextAdvances(d, r);
    var (r', res) := Next(d, r);
    if res.Delivered? then
      var (recs, end, last) := ReadAll(d, r');
      ([res.record] + recs, end, last)
    else ([], r', res)
  }

  // ---------------------------------------------------------------------------------------------
  // Sound directories
  // ---------------------------------------------------------------------------------------------

  // The newest segment ends in part of a record.
  predicate IsTorn(d: Disk) {
    d != [] && d[|d| - 1].size >= HEADER && (d[|d| - 1].size - HEADER) % RECORD != 0
  }

  /** Reading a sound directory delivers every complete record behind the reader's place and ends where the journal
      ends: at the torn tail of the newest segment if it has one, cleanly if not. */
  lemma {:induction false} ReadAllExact(d: Disk, r: Reader)
    requires DiskOk(d) && Ready(d, r) && r.known == |d| && 0 <= r.lastGood <= |Records(d)|
    ensures var (recs, end, res) := ReadAll(d, r);
      && recs == Records(d)[r.lastGood..] && end.lastGood == Total(d) && end.known == |d| && end.isOpen == IsTorn(d)
      && res == (if IsTorn(d) then TruncatedTail else EndOfJournal)
      && (IsTorn(d) ==>
            && end.current == |d| - 1 && end.counter == d[|d| - 1].counter
            && end.offset == HEADER + RECORD * Whole(d[|d| - 1]))
    decreases r.known - r.next, if r.isOpen then r.fileSize - r.offset else 0
  {
    hide Next, Records, DiskOk, Readable, Whole, Total, OnBoundary, PlaceOf;
    NextExact(d, r);
    NextAdvances(d, r);
    RecordsNumbered(d);
    var (r', res) := Next(d, r);
    match res
    case Delivered(_) =>
      ReadAllExact(d, r');
    case EndOfJournal =>
      EndsClean(d, r');
    case TruncatedTail =>
      TornAt(d);
    case Corrupt(_) =>
  }

  // A reader that ran out of segments has read the newest to its last byte, unless that has no complete header.
  lemma EndsClean(d: Disk, r: Reader)
    requires DiskOk(d) && r.known == |d| && (Headed(d, |d|) ==> Ready(d, r) && r.next == |d|) && !r.isOpen
    ensures !IsTorn(d)
  {
    hide Readable, PlaceOf;
    if IsTorn(d) {
      forall i | 0 <= i < |d| ensures d[i].size >= HEADER {
        SealedBelow(d, i);
      }
      assert false;
    }
  }

  lemma TornAt(d: Disk)
    requires d != [] && HEADER <= HEADER + RECORD * Whole(d[|d| - 1]) < d[|d| - 1].size
    ensures IsTorn(d)
  {
  }

  /** From the start of a sound directory. */
  lemma ReadsSound(d: Disk)
    requires DiskOk(d)
    ensures Readable(d)
    ensures var (recs, end, res) := ReadAll(d, NewReader(d));
      && recs == Records(d) && end.lastGood == Total(d) && end.known == |d| && end.isOpen == IsTorn(d)
      && res == (if IsTorn(d) then TruncatedTail else EndOfJournal)
      && (IsTorn(d) ==>
            && end.current == |d| - 1 && end.counter == d[|d| - 1].counter
            && end.offset == HEADER + RECORD * Whole(d[|d| - 1]))
  {
    hide ReadAll, Records, DiskOk;
    DiskReadable(d);
    RecordsNumbered(d);
    ReadAllExact(d, NewReader(d));
  }

  // ---------------------------------------------------------------------------------------------
  // A directory with more segments behind
  // ---------------------------------------------------------------------------------------------

  lemma {:induction false} OpenMore(d: Disk, d': Disk, r: Reader)
    requires Readable(d) && Readable(d') && d <= d' && r.known == |d| && r.next <= r.known && !r.isOpen
    ensures var r1 := OpenNext(d, r);
      if r1.isOpen then OpenNext(d', r.(known := |d'|)) == r1.(known := |d'|)
      else r1 == r.(next := |d|) && OpenNext(d', r.(known := |d'|)) == OpenNext(d', r1.(known := |d'|))
    decreases r.known - r.next
  {
    hide FileBytes, DecodeHeader;
    if r.next < r.known {
      assert d'[r.next] == d[r.next];
      if !Opens(d[r.next]) {
        OpenMore(d, d', r.(next := r.next + 1));
      }
    }
  }

  // What a call finds among the first segments it finds whatever comes behind them.
  lemma {:induction false} NextMore(d: Disk, d': Disk, r: Reader)
    requires ReaderOk(d, r) && Readable(d') && d <= d' && r.known == |d|
    ensures ReaderOk(d', r.(known := |d'|))
    ensures var (r1, res) := Next(d, r);
      if res.EndOfJournal? then
        ReaderOk(d', r1.(known := |d'|)) && Next(d', r.(known := |d'|)) == Next(d', r1.(known := |d'|))
      else Next(d', r.(known := |d'|)) == (r1.(known := |d'|), res)
    decreases r.known - r.next, r.isOpen
  {
    hide FileBytes, Opens, OpenNext, ReadAt, Readable;
    if r.isOpen {
      InMore(d, d', r);
      if Found(d, r).EndOfSegment? {
        NextMore(d, d', r.(isOpen := false));
      }
    } else {
      var r1 := OpenNext(d, r);
      OpenMore(d, d', r);
      if r1.isOpen {
        OpenNextProgress(d, r);
        InMore(d, d', r1);
        if Found(d, r1).EndOfSegment? {
          NextMore(d, d', r1.(isOpen := false));
        }
      }
    }
  }

  lemma InMore(d: Disk, d': Disk, r: Reader)
    requires ReaderOk(d, r) && Readable(d') && d <= d' && r.isOpen
    ensures d'[r.current] == d[r.current]
  {
  }

  /** Reading on past the first segments continues where reading them alone ended, if it came to their end, and
      ends with them otherwise. */
  lemma {:induction false} ReadAllMore(d: Disk, d': Disk, r: Reader)
    requires ReaderOk(d, r) && Readable(d') && d <= d' && r.known == |d|
    ensures ReaderOk(d', r.(known := |d'|))
    ensures var (recs, end, res) := ReadAll(d, r);
      if res.EndOfJournal? then
        && ReaderOk(d', end.(known := |d'|))
        && var (more, end', res') := ReadAll(d', end.(known := |d'|));
           ReadAll(d', r.(known := |d'|)) == (recs + more, end', res')
      else ReadAll(d', r.(known := |d'|)) == (recs, end.(known := |d'|), res)
    decreases r.known - r.next, if r.isOpen then r.fileSize - r.offset else 0
  {
    hide Next, Readable;
    NextMore(d, d', r);
    NextAdvances(d, r);
    var (r1, res1) := Next(d, r);
    if res1.Delivered? {
      ReadAllMore(d, d', r1);
      var (recs, end, res) := ReadAll(d, r1);
      if res.EndOfJournal? {
        var more := ReadAll(d', end.(known := |d'|)).0;
        assert [res1.record] + (recs + more) == [res1.record] + recs + more;
      }
    } else if res1.EndOfJournal? {
      var more := ReadAll(d', r1.(known := |d'|)).0;
      assert [] + more == more;
    }
  }

  // ---------------------------------------------------------------------------------------------
  // A last segment whose numbers do not go on
  // ---------------------------------------------------------------------------------------------

  // Records 0 to k of the segment carry on from `base`; record k does not.
  ghost predicate BreaksAt(seg: Segment, base: int, k: nat) {
    && WellFormed(seg) && k < |seg.recs| && HEADER + RECORD * k + RECORD <= seg.size
    && (forall m :: 0 <= m < k ==> seg.recs[m].globalSeq == base + 1 + m)
    && seg.recs[k].globalSeq != base + 1 + k
  }

  lemma {:induction false} ReadLast(d: Disk, r: Reader, base: int, j: nat, k: nat)
    requires ReaderOk(d, r) && d != [] && r.isOpen && r.current == |d| - 1 && r.fileSize == d[|d| - 1].size
    requires BreaksAt(d[|d| - 1], base, k) && j <= k && r.offset == HEADER + RECORD * j && r.lastGood == base + j
    ensures ReadAll(d, r).0 == d[|d| - 1].recs[j..k] && ReadAll(d, r).2 == Corrupt(d[|d| - 1].recs[k])
    decreases k - j
  {
    hide FileBytes, ReadAt, WellFormed, Readable;
    var seg := d[|d| - 1];
    NextAdvances(d, r);
    SegmentReads(seg, seg.size, j, r.lastGood);
    if j < k {
      var r' := r.(offset := r.offset + RECORD, lastGood := base + j + 1);
      assert Next(d, r) == (r', Delivered(seg.recs[j]));
      ReadLast(d, r', base, j + 1, k);
      assert seg.recs[j..k] == [seg.recs[j]] + seg.recs[j + 1..k];
    }
  }

  /** A sound, untorn journal followed by a segment whose numbers break off is read up to the break and reported
      corrupt there. */
  lemma GapReads(front: Disk, seg: Segment, k: nat)
    requires DiskOk(front) && !IsTorn(front) && BreaksAt(seg, Total(front), k)
    ensures Readable(front + [seg])
    ensures var (recs, _, res) := ReadAll(front + [seg], NewReader(front + [seg]));
      recs == Records(front) + seg.recs[..k] && res == Corrupt(seg.recs[k])
  {
    hide ReadAll, Records, DiskOk, Total, Next, FileBytes, DecodeHeader, WellFormed;
    var d := front + [seg];
    ReadsSound(front);
    ReadableWith(front, seg);
    ReadAllMore(front, d, NewReader(front));
    var (recs, end, _) := ReadAll(front, NewReader(front));
    EndOf(front, NewReader(front));
    var r := end.(known := |d|);
    LastOpens(d, r, seg);
    var r1 := LastOpened(d, r);
    OpenThenRead(d, r, r1);
    ReadLast(d, r1, Total(front), 0, k);
    assert seg.recs[0..k] == seg.recs[..k];
  }

  lemma ReadableWith(front: Disk, seg: Segment)
    requires Readable(front) && WellFormed(seg)
    ensures Readable(front + [seg])
  {
  }

  lemma {:induction false} EndOf(d: Disk, r: Reader)
    requires ReaderOk(d, r) && ReadAll(d, r).2.EndOfJournal?
    ensures var end := ReadAll(d, r).1; !end.isOpen && end.next == end.known == r.known
    decreases r.known - r.next, if r.isOpen then r.fileSize - r.offset else 0
  {
    hide Next, Readable;
    NextAdvances(d, r);
    if Next(d, r).1.Delivered? {
      EndOf(d, Next(d, r).0);
    }
  }

  // The reader at the first record of the last segment.
  function LastOpened(d: Disk, r: Reader): Reader
    requires d != []
  {
    var seg := d[|d| - 1];
    r.(isOpen := true, current := |d| - 1, fileSize := seg.size, offset := HEADER, counter := seg.counter, next := |d|)
  }

  lemma LastOpens(d: Disk, r: Reader, seg: Segment)
    requires Readable(d) && d != [] && d[|d| - 1] == seg && WellFormed(seg) && seg.size >= HEADER
    requires !r.isOpen && r.known == |d| && r.next == |d| - 1
    ensures OpenNext(d, r) == LastOpened(d, r)
  {
    hide FileBytes, DecodeHeader, WellFormed;
    SegmentHeader(seg);
  }

  lemma OpenThenRead(d: Disk, r: Reader, r1: Reader)
    requires ReaderOk(d, r) && !r.isOpen && OpenNext(d, r) == r1 && r1.isOpen
    ensures ReaderOk(d, r1) && ReadAll(d, r) == ReadAll(d, r1)
  {
    hide OpenNext, NextInSegment, Readable;
    OpenNextProgress(d, r);
  }

  // ---------------------------------------------------------------------------------------------
  // The code
  // ---------------------------------------------------------------------------------------------

  /** The loop of `recover` over the journal, on any readable directory, sound or not. */
  method ReadJournal(d: Disk) returns (recs: seq<Record>, res: Result, reader: JournalReader)
    requires Readable(d)
    ensures (recs, reader.State(), res) == ReadAll(d, NewReader(d))
  {
    hide Next, Readable;
    reader := new JournalReader(d);
    recs := [];
    assert [] + ReadAll(d, NewReader(d)).0 == ReadAll(d, NewReader(d)).0;
    while true
      invariant reader.disk == d && fresh(reader) && ReaderOk(d, reader.State())
      invariant var (more, end, last) := ReadAll(d, reader.State()); ReadAll(d, NewReader(d)) == (recs + more, end, last)
      decreases reader.known - reader.nextSegment, if reader.isOpen then reader.fileSize - reader.offset else 0
    {
      ghost var r, before := reader.State(), recs;
      NextAdvances(d, r);
      res := reader.ReadNext();
      match res {
        case Delivered(rec) =>
          recs := recs + [rec];
          assert before + ([rec] + ReadAll(d, reader.State()).0) == recs + ReadAll(d, reader.State()).0;
        case _ =>
          assert before + [] == recs;
          return;
      }
    }
  }
}
