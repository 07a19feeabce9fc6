/** Following a journal while it is being written. */
module Tailer {
  import opened Types
  import opened Bytes
  import opened JournalFormat
  import opened Journal
  import opened Readings
  import Durability

  // The writer is ahead of where it was: more bytes in the newest segment, more segments, nothing rewritten.
  ghost predicate Grows(d: Disk, d': Disk) {
    && DiskOk(d) && DiskOk(d') && |d| <= |d'|
    && forall i :: 0 <= i < |d| ==>
         && d'[i].first == d[i].first && d'[i].counter == d[i].counter
         && d[i].recs <= d'[i].recs && d[i].size <= d'[i].size
  }

  datatype Tail = Tail(reader: Reader, needsReseek: bool)

  datatype TailResult =
    | Fetched(record: Record)
    | NotYet
    | Broken

  datatype Checkpoint = Checkpoint(counter: nat, offset: nat, lastGood: int)

  // ---------------------------------------------------------------------------------------------
  // The steps of a call
  // ---------------------------------------------------------------------------------------------

  // `rescan`: list the segments whose headers are complete.
  function Listed(d: Disk): nat {
    if d != [] && d[|d| - 1].size < HEADER then |d| - 1 else |d|
  }

  function Rescan(d: Disk, r: Reader): Reader {
    if Listed(d) > r.known then r.(known := Listed(d)) else r
  }

  // `seekTo`: reopen the segment with this counter, from the given place.
  function SeekFrom(d: Disk, r: Reader, i: nat, cp: Checkpoint): Reader
    requires Readable(d) && r.known <= |d|
    decreases r.known - i
  {
    if i >= r.known then r.(isOpen := false, next := r.known, lastGood := cp.lastGood)
    else if Opens(d[i]) && OpenAt(d, r, i).counter == cp.counter then
      OpenAt(d, r, i).(next := i + 1, offset := cp.offset, lastGood := cp.lastGood)
    else SeekFrom(d, r, i + 1, cp)
  }

  function CheckpointOf(t: Tail): Checkpoint {
    Checkpoint(t.reader.counter, t.reader.offset, t.reader.lastGood)
  }

  // Before reading: a rescan against the directory as it is first, and a reopening or a new look at the file size
  // against the directory as it is a moment later.
  function Prepared(d1: Disk, d2: Disk, t: Tail): Reader
    requires Readable(d2) && Rescan(d1, t.reader).known <= |d2|
    requires t.reader.isOpen ==> 0 <= t.reader.current < |d2|
  {
    if t.needsReseek then
      var r := Rescan(d1, t.reader);
      if r.offset >= HEADER then SeekFrom(d2, r, 0, CheckpointOf(t)) else r
    else if t.reader.isOpen then t.reader.(fileSize := d2[t.reader.current].size)
    else t.reader
  }

  function TailNext(d1: Disk, d2: Disk, t: Tail): (Tail, TailResult)
    requires Readable(d2) && Rescan(d1, t.reader).known <= |d2|
    requires t.reader.isOpen ==> 0 <= t.reader.current < |d2|
    requires ReaderOk(d2, Prepared(d1, d2, t))
  {
    var (r, res) := Next(d2, Prepared(d1, d2, t));
    match res
    case Delivered(rec) => (Tail(r, false), Fetched(rec))
    case Corrupt(_) => (Tail(r, false), Broken)
    case _ => (Tail(r, true), NotYet)
  }

  // A tailer at the start of a directory, or at a checkpoint of an earlier one.
  function NewTail(d: Disk, cp: Checkpoint): Tail
    requires Readable(d)
  {
    if cp.lastGood != 0 then Tail(SeekFrom(d, NewReader(d), 0, cp), false) else Tail(NewReader(d), false)
  }

  // ---------------------------------------------------------------------------------------------
  // The invariant
  // ---------------------------------------------------------------------------------------------

  ghost predicate TailOk(d: Disk, t: Tail) {
    && DiskOk(d) && Mark(d, t.reader)
    && Headed(d, t.reader.known)
    && t.reader.current < t.reader.known && -1 <= t.reader.current
    && (t.reader.current == -1 ==> !t.reader.isOpen && t.reader.next == 0)
    && (t.reader.isOpen ==> t.reader.next == t.reader.current + 1 && t.reader.offset <= t.reader.fileSize <= d[t.reader.current].size)
    && (!t.needsReseek && t.reader.current >= 0 ==> t.reader.isOpen)
  }

  lemma GrowsMark(d: Disk, d': Disk, r: Reader)
    requires Grows(d, d') && Mark(d, r)
    ensures Mark(d', r)
  {
    hide OnBoundary, PlaceOf, DiskOk;
  }

  // No earlier segment has this one's counter.
  ghost predicate Sole(d: Disk, c: nat)
    requires c < |d|
  {
    forall k :: 0 <= k < c ==> d[k].counter != d[c].counter
  }

  // If the call looks for its segment again, that is the first with its counter.
  ghost predicate SeeksRight(d: Disk, t: Tail) {
    t.needsReseek && t.reader.current >= 0 ==> t.reader.current < |d| && Sole(d, t.reader.current)
  }

  // The reader in segment `c`, at the checkpoint's place.
  function ReopenedIn(d: Disk, r: Reader, cp: Checkpoint, c: nat): Reader
    requires c < |d|
  {
    r.(isOpen := true, current := c, fileSize := d[c].size, offset := cp.offset, counter := cp.counter,
       next := c + 1, lastGood := cp.lastGood)
  }

  // Seeking reopens the first segment with the checkpoint's counter.
  lemma {:induction false} SeekLands(d: Disk, r: Reader, i: nat, cp: Checkpoint, c: nat)
    requires DiskOk(d) && Readable(d) && r.known <= |d| && Headed(d, r.known)
    requires i <= c < r.known && cp.counter == d[c].counter && forall k :: i <= k < c ==> d[k].counter != cp.counter
    ensures SeekFrom(d, r, i, cp) == ReopenedIn(d, r, cp, c)
    decreases c - i
  {
    hide FileBytes, DecodeHeader, DiskOk, Readable;
    OpensIff(d, i);
    if i < c {
      SeekLands(d, r, i + 1, cp, c);
    }
  }

  lemma {:induction false} FirstWith(d: Disk, c: nat) returns (k: nat)
    requires c < |d|
    ensures k <= c && d[k].counter == d[c].counter && Sole(d, k) && (k == c <==> Sole(d, c))
  {
    k := c;
    while !Sole(d, k)
      invariant k <= c && d[k].counter == d[c].counter && (Sole(d, c) ==> k == c)
      decreases k
    {
      var j :| 0 <= j < k && d[j].counter == d[k].counter;
      k := j;
    }
  }

  /** Seeking reopens the very segment of the checkpoint if and only if no earlier one has its counter. */
  lemma SeekFinds(d: Disk, r: Reader, cp: Checkpoint, c: nat)
    requires DiskOk(d) && Readable(d) && r.known <= |d|
    requires c < r.known && cp.counter == d[c].counter && Headed(d, r.known)
    ensures SeekFrom(d, r, 0, cp) == ReopenedIn(d, r, cp, c) <==> Sole(d, c)
  {
    hide DiskOk, Readable, SeekFrom, Headed;
    var k := FirstWith(d, c);
    SeekLands(d, r, 0, cp, k);
  }

  /** A restart after a clean end numbers its segments from zero again, so that from then on seeking for the new
      segment reopens the journal's first. */
  lemma RestartRepeatsCounter(w: Durability.World, r: Reader, cp: Checkpoint)
    requires Durability.Inv(w) && w.writer.Down? && !IsTorn(w.disk) && w.disk != [] && w.disk[0].counter == 0
    requires w.disk[|w.disk| - 1].recs != [] && Total(w.disk) + 1 < Pow256(8)
    ensures Durability.Enabled(w, Durability.Recover)
    ensures Durability.Enabled(Durability.Do(w, Durability.Recover), Durability.Open)
    ensures var d := Durability.Do(Durability.Do(w, Durability.Recover), Durability.Open).disk;
      && |d| == |w.disk| + 1 && d[|w.disk|].counter == 0 && !Sole(d, |w.disk|) && DiskOk(d) && Readable(d)
      && (r.known == |d| && cp.counter == 0 ==> SeekFrom(d, r, 0, cp) == ReopenedIn(d, r, cp, 0))
  {
    hide DiskOk, Readable, SeekFrom, Total;
    Durability.RecoverKeeps(w);
    var w1 := Durability.Do(w, Durability.Recover);
    Durability.OpenKeeps(w1);
    var d := Durability.Do(w1, Durability.Open).disk;
    DiskReadable(d);
    FinishedName(w.disk);
    assert d[0] == w.disk[0];
    if r.known == |d| && cp.counter == 0 {
      AllHeaded(d);
      SeekLands(d, r, 0, cp, 0);
    }
  }

  // A complete newest segment is not the one the next number names.
  lemma FinishedName(d: Disk)
    requires DiskOk(d) && d != [] && d[|d| - 1].recs != [] && !IsTorn(d)
    ensures d[|d| - 1].first != Total(d) + 1 && Total(d) >= 0
  {
    SegmentAt(d, |d| - 1);
    WholeBound(d[|d| - 1]);
  }

  lemma AllHeaded(d: Disk)
    requires DiskOk(d) && d != [] && d[|d| - 1].size >= HEADER
    ensures Headed(d, |d|)
  {
    forall i | 0 <= i < |d| ensures d[i].size >= HEADER {
      SealedBelow(d, i);
    }
  }

  lemma ListedGrows(d1: Disk, d2: Disk, i: nat)
    requires Grows(d1, d2) && i < Listed(d1)
    ensures i < |d2| && d2[i].size >= HEADER
  {
    SegmentAt(d1, i);
    if i < |d1| - 1 {
      SealedBelow(d1, i);
    }
  }

  // After its preparations the reader is ready, at the mark it had.
  lemma PreparedReady(d0: Disk, d1: Disk, d2: Disk, t: Tail)
    requires TailOk(d0, t) && Grows(d0, d1) && Grows(d1, d2) && Grows(d0, d2) && SeeksRight(d2, t)
    ensures Readable(d2) && Rescan(d1, t.reader).known <= |d2|
    ensures t.reader.isOpen ==> 0 <= t.reader.current < |d2|
    ensures var r := Prepared(d1, d2, t);
      && Ready(d2, r) && r.lastGood == t.reader.lastGood && r.current == t.reader.current
      && r.known == (if t.needsReseek then Rescan(d1, t.reader).known else t.reader.known)
      && Headed(d2, r.known)
  {
    hide OnBoundary, PlaceOf, Opens, FileBytes, SegmentOk, Whole;
    DiskReadable(d2);
    GrowsMark(d0, d2, t.reader);
    forall i | 0 <= i < Rescan(d1, t.reader).known ensures i < |d2| && d2[i].size >= HEADER {
      if i < t.reader.known {
        assert d0[i].size <= d2[i].size;
      } else {
        ListedGrows(d1, d2, i);
      }
    }
    if t.needsReseek && t.reader.current >= 0 {
      SeekFinds(d2, Rescan(d1, t.reader), CheckpointOf(t), t.reader.current);
    }
  }

  // The call is defined whatever its preparations found.
  lemma PreparedOk(d0: Disk, d1: Disk, d2: Disk, t: Tail)
    requires TailOk(d0, t) && Grows(d0, d1) && Grows(d1, d2) && Grows(d0, d2)
    ensures Readable(d2) && Rescan(d1, t.reader).known <= |d2|
    ensures t.reader.isOpen ==> 0 <= t.reader.current < |d2|
    ensures ReaderOk(d2, Prepared(d1, d2, t))
    ensures !SeeksRight(d2, t) ==> Prepared(d1, d2, t).isOpen && Lost(d2, Prepared(d1, d2, t), t.reader.current)
    ensures !SeeksRight(d2, t) ==>
      var r := Prepared(d1, d2, t); 0 <= r.current < |d2| && Sole(d2, r.current) && r.counter == d2[r.current].counter
  {
    hide OnBoundary, PlaceOf, Opens, FileBytes, SegmentOk, Whole, Sole;
    if SeeksRight(d2, t) {
      PreparedReady(d0, d1, d2, t);
    } else {
      DiskReadable(d2);
      GrowsMark(d0, d2, t.reader);
      forall i | 0 <= i < Rescan(d1, t.reader).known ensures i < |d2| && d2[i].size >= HEADER {
        if i < t.reader.known {
          assert d0[i].size <= d2[i].size;
        } else {
          ListedGrows(d1, d2, i);
        }
      }
      var k := FirstWith(d2, t.reader.current);
      SeekLands(d2, Rescan(d1, t.reader), 0, CheckpointOf(t), k);
    }
  }

  // The reader stands in an earlier segment, at the place it had in segment `c`.
  ghost predicate Lost(d: Disk, r: Reader, c: int) {
    && DiskOk(d) && 0 <= r.current < c < r.known && Headed(d, r.known)
    && r.isOpen && r.next == r.current + 1 && r.fileSize == d[r.current].size
    && HEADER <= r.offset <= d[c].size && OnBoundary(r.offset) && r.lastGood == d[c].first - 1 + PlaceOf(r.offset)
  }

  // What a lost reader finds: nothing at all past the end of that segment, and otherwise a record of the wrong number.
  lemma LostReads(d: Disk, r: Reader, c: int)
    requires Lost(d, r, c) && ReaderOk(d, r)
    ensures if r.offset > d[r.current].size then Next(d, r) == (r, TruncatedTail) else Next(d, r).1.Corrupt?
  {
    hide ReadAt, FileBytes, Opens, OnBoundary, PlaceOf, Pow256, SegmentOk, OpenNext, DiskOk;
    var k := r.current;
    SealedBelow(d, k);
    SegmentAt(d, k);
    FirstsIncrease(d, k, c);
    WholeBound(d[k]);
    Boundary(r.offset);
    var j := PlaceOf(r.offset);
    if r.offset > d[k].size {
      PastEnd(d, r);
    } else {
      SegmentReads(d[k], d[k].size, j, r.lastGood);
      if r.offset == d[k].size {
        NextOpens(d, r.(isOpen := false));
        NextWrong(d, r, c);
        OnFromEnd(d, r);
      }
    }
  }

  lemma PastEnd(d: Disk, r: Reader)
    requires ReaderOk(d, r) && r.isOpen && r.offset > r.fileSize
    ensures Next(d, r) == (r, TruncatedTail)
  {
    hide FileBytes;
    assert |FileBytes(d[r.current])[..r.fileSize]| == r.fileSize;
  }

  lemma OnFromEnd(d: Disk, r: Reader)
    requires ReaderOk(d, r) && r.isOpen && Found(d, r).EndOfSegment? && OpenNext(d, r.(isOpen := false)).isOpen
    ensures ReaderOk(d, OpenNext(d, r.(isOpen := false)))
    ensures Next(d, r) == NextInSegment(d, OpenNext(d, r.(isOpen := false)))
  {
    hide Readable, FileBytes, ReadAt, OpenNext;
    OpenNextProgress(d, r.(isOpen := false));
    assert Next(d, r) == Next(d, r.(isOpen := false));
  }

  lemma NextOpens(d: Disk, r: Reader)
    requires DiskOk(d) && Readable(d) && r.next < r.known && Headed(d, r.known) && !r.isOpen
    ensures OpenNext(d, r) == r.(isOpen := true, current := r.next, fileSize := d[r.next].size, offset := HEADER,
                                 counter := d[r.next].counter, next := r.next + 1)
  {
    hide DecodeHeader, FileBytes;
    OpensIff(d, r.next);
  }

  // The segment behind starts with an older record than the one looked for.
  lemma NextWrong(d: Disk, r: Reader, c: int)
    requires Lost(d, r, c) && Readable(d) && r.offset == d[r.current].size
    ensures var seg := d[r.current + 1];
      seg.recs != [] && ReadAt(FileBytes(seg)[..seg.size], HEADER, r.lastGood) == Gap(seg.recs[0])
  {
    hide ReadAt, FileBytes, Pow256, SegmentOk, OnBoundary, PlaceOf;
    var k := r.current;
    SealedBelow(d, k);
    SealedBelow(d, k + 1);
    SegmentAt(d, k);
    SegmentAt(d, k + 1);
    Boundary(r.offset);
    if k + 1 < c {
      FirstsIncrease(d, k + 1, c);
    }
    SegmentReads(d[k + 1], d[k + 1].size, 0, r.lastGood);
  }

  // A tailer that keeps looking in the wrong segment, past its end.
  ghost predicate Stuck(d: Disk, t: Tail) {
    && DiskOk(d) && t.needsReseek && t.reader.known <= |d| && Headed(d, t.reader.known)
    && 0 <= t.reader.current < t.reader.known && t.reader.current < |d| - 1 && Sole(d, t.reader.current)
    && t.reader.counter == d[t.reader.current].counter && t.reader.offset > d[t.reader.current].size
  }

  /** However the writer moves between and during calls, a call delivers exactly the next record of the journal or
      says there is none yet, and nothing is skipped, repeated or reported broken, as long as the call does not have to
      find its segment again behind another with the same counter. If it has to, it delivers nothing: it reports
      corruption, or is stuck. */
  lemma TailExactIff(d0: Disk, d1: Disk, d2: Disk, t: Tail)
    requires TailOk(d0, t) && Grows(d0, d1) && Grows(d1, d2) && Grows(d0, d2)
    ensures Readable(d2) && Rescan(d1, t.reader).known <= |d2|
    ensures t.reader.isOpen ==> 0 <= t.reader.current < |d2|
    ensures ReaderOk(d2, Prepared(d1, d2, t))
    ensures var (t', res) := TailNext(d1, d2, t);
      if SeeksRight(d2, t) then Followed(d2, t, t', res) else res.Broken? || (res.NotYet? && Stuck(d2, t'))
  {
    hide Records, Next, Mark, Total, Whole, Sole, Prepared, Lost, Stuck, DiskOk, Grows;
    PreparedOk(d0, d1, d2, t);
    if SeeksRight(d2, t) {
      PreparedReady(d0, d1, d2, t);
      GrowsOk(d1, d2);
      NextExact(d2, Prepared(d1, d2, t));
    } else {
      LostReads(d2, Prepared(d1, d2, t), t.reader.current);
      LostStuck(d2, t, Prepared(d1, d2, t));
    }
  }

  lemma LostStuck(d: Disk, t: Tail, r: Reader)
    requires Lost(d, r, t.reader.current) && Sole(d, r.current) && r.counter == d[r.current].counter
    ensures r.offset > d[r.current].size ==> Stuck(d, Tail(r, true))
  {
    hide DiskOk, OnBoundary, PlaceOf, Sole;
  }

  // The right outcome of a call.
  ghost predicate Followed(d: Disk, t: Tail, t': Tail, res: TailResult) {
    && TailOk(d, t')
    && match res
       case Fetched(rec) =>
         && 0 <= t.reader.lastGood < |Records(d)| && rec == Records(d)[t.reader.lastGood]
         && t'.reader.lastGood == t.reader.lastGood + 1
       case NotYet => t'.reader.lastGood == t.reader.lastGood && t'.needsReseek
       case Broken => false
  }

  /** A stuck tailer stays stuck, however the journal grows. */
  lemma StuckStays(d0: Disk, d1: Disk, d2: Disk, t: Tail)
    requires Stuck(d0, t) && Grows(d0, d1) && Grows(d1, d2) && Grows(d0, d2)
    ensures Readable(d2) && Rescan(d1, t.reader).known <= |d2|
    ensures t.reader.isOpen ==> 0 <= t.reader.current < |d2|
    ensures ReaderOk(d2, Prepared(d1, d2, t))
    ensures TailNext(d1, d2, t).1.NotYet? && Stuck(d2, TailNext(d1, d2, t).0)
  {
    hide Opens, FileBytes, SegmentOk, Whole, Next;
    var c := t.reader.current;
    DiskReadable(d2);
    forall i | 0 <= i < Rescan(d1, t.reader).known ensures i < |d2| && d2[i].size >= HEADER {
      if i < t.reader.known {
        assert d0[i].size <= d2[i].size;
      } else {
        ListedGrows(d1, d2, i);
      }
    }
    SealedSame(d0, d2, c);
    SegmentAt(d2, c);
    SeekLands(d2, Rescan(d1, t.reader), 0, CheckpointOf(t), c);
    PastEnd(d2, Prepared(d1, d2, t));
  }

  // ---------------------------------------------------------------------------------------------
  // Progress and resuming
  // ---------------------------------------------------------------------------------------------

  lemma {:induction false} FirstsIncrease(d: Disk, i: nat, j: nat)
    requires DiskOk(d) && i < j < |d|
    ensures d[i].first - 1 + Whole(d[i]) <= d[j].first - 1
    decreases j - i
  {
    assert Sealed(d[j - 1]) && d[j - 1 + 1].first == d[j - 1].first + |d[j - 1].recs|;
    SegmentAt(d, j - 1);
    WholeBound(d[j - 1]);
    if i < j - 1 {
      FirstsIncrease(d, i, j - 1);
    }
  }

  lemma KnownGrows(d1: Disk, d2: Disk, n: nat)
    requires Grows(d1, d2) && Listed(d1) <= n <= |d2|
    ensures Total(d1) <= KnownTotal(d2, n)
  {
    if d1 != [] {
      var last := |d1| - 1;
      SegmentAt(d1, last);
      WholeBound(d1[last]);
      WholeMore(d1[last].size, d2[last].size);
      if Listed(d1) == |d1| {
        if last < n - 1 {
          FirstsIncrease(d2, last, n - 1);
        }
      } else if n > 0 {
        if last < n - 1 {
          FirstsIncrease(d2, last, n - 1);
        } else if last == n {
          assert Sealed(d1[n - 1]) && d1[n - 1 + 1].first == d1[n - 1].first + |d1[n - 1].recs|;
          SegmentAt(d1, n - 1);
          WholeBound(d1[n - 1]);
          WholeMore(d1[n - 1].size, d2[n - 1].size);
        }
      }
    }
  }

  lemma WholeMore(a: nat, b: nat)
    requires a <= b
    ensures (if a < HEADER then 0 else (a - HEADER) / RECORD) <= if b < HEADER then 0 else (b - HEADER) / RECORD
  {
  }

  lemma TotalGrows(d1: Disk, d2: Disk)
    requires Grows(d1, d2)
    ensures Total(d1) <= Total(d2)
  {
    hide DiskOk;
    KnownGrows(d1, d2, |d2|);
  }

  /** A call that follows a "not yet", with an unread record in the journal when it begins, delivers one if and only if
      no earlier segment has the counter of the segment it stopped in. */
  lemma TailProgressIff(d0: Disk, d1: Disk, d2: Disk, t: Tail)
    requires TailOk(d0, t) && Grows(d0, d1) && Grows(d1, d2) && Grows(d0, d2)
    requires t.needsReseek && t.reader.lastGood < Total(d1)
    ensures Readable(d2) && Rescan(d1, t.reader).known <= |d2|
    ensures t.reader.isOpen ==> 0 <= t.reader.current < |d2|
    ensures ReaderOk(d2, Prepared(d1, d2, t))
    ensures TailNext(d1, d2, t).1.Fetched? <==> SeeksRight(d2, t)
  {
    hide Records, Next, Prepared, Mark, Whole, Total, DiskOk, KnownTotal, SeeksRight, Stuck, TailOk;
    TailExactIff(d0, d1, d2, t);
    if SeeksRight(d2, t) {
      PreparedReady(d0, d1, d2, t);
      NextExact(d2, Prepared(d1, d2, t));
      KnownGrows(d1, d2, Rescan(d1, t.reader).known);
      TotalGrows(d1, d2);
    }
  }

  /** A new tailer started at a checkpoint goes on right behind the records the old one delivered if and only if no
      earlier segment has the checkpoint's counter. */
  lemma ResumesIff(d: Disk, t: Tail, d': Disk)
    requires TailOk(d, t) && Grows(d, d') && Headed(d', |d'|)
    ensures Readable(d') && t.reader.current < |d'| && (t.reader.lastGood != 0 ==> t.reader.current >= 0)
    ensures var t' := NewTail(d', CheckpointOf(t));
      TailOk(d', t') && t'.reader.lastGood == t.reader.lastGood <==> (t.reader.lastGood != 0 ==> Sole(d', t.reader.current))
  {
    hide OnBoundary, PlaceOf, Opens, FileBytes, SegmentOk, Whole, Sole;
    DiskReadable(d');
    GrowsMark(d, d', t.reader);
    if t.reader.lastGood != 0 {
      var c := t.reader.current;
      var k := FirstWith(d', c);
      SeekLands(d', NewReader(d'), 0, CheckpointOf(t), k);
      if k < c {
        FirstsIncrease(d', k, c);
        SealedBelow(d', k);
        SegmentAt(d', k);
        WholeBound(d'[k]);
      }
    }
  }

  // ---------------------------------------------------------------------------------------------
  // Whole runs
  // ---------------------------------------------------------------------------------------------

  // The directories each call meets: as it begins and as it reads.
  ghost predicate Chain(d: Disk, calls: seq<(Disk, Disk)>)
    decreases |calls|
  {
    calls == [] ||
    (Grows(d, calls[0].0) && Grows(calls[0].0, calls[0].1) && Grows(d, calls[0].1) && Chain(calls[0].1, calls[1..]))
  }

  // Every call of the run that looks for its segment again finds it.
  ghost predicate AllSeekRight(d: Disk, calls: seq<(Disk, Disk)>, t: Tail)
    requires TailOk(d, t) && Chain(d, calls)
    decreases |calls|
  {
    calls == [] ||
    (&& SeeksRight(calls[0].1, t)
     && (TailExactIff(d, calls[0].0, calls[0].1, t);
         AllSeekRight(calls[0].1, calls[1..], TailNext(calls[0].0, calls[0].1, t).0)))
  }

  ghost function Final(d: Disk, calls: seq<(Disk, Disk)>): Disk {
    if calls == [] then d else calls[|calls| - 1].1
  }

  // What a run of calls delivers, and the tailer after it.
  ghost function TailRun(d: Disk, calls: seq<(Disk, Disk)>, t: Tail): (Tail, seq<Record>)
    requires TailOk(d, t) && Chain(d, calls) && AllSeekRight(d, calls, t)
    decreases |calls|
  {
    if calls == [] then (t, [])
    else
      TailExactIff(d, calls[0].0, calls[0].1, t);
      var (t1, res) := TailNext(calls[0].0, calls[0].1, t);
      var (t2, rest) := TailRun(calls[0].1, calls[1..], t1);
      (t2, (if res.Fetched? then [res.record] else []) + rest)
  }

  lemma {:induction false} RecordsPrefix(d: Disk, n: nat)
    requires n <= |d|
    ensures Records(d[..n]) <= Records(d)
    decreases |d|
  {
    if n < |d| {
      var most := d[..|d| - 1];
      assert most[..n] == d[..n];
      RecordsPrefix(most, n);
    } else {
      assert d[..n] == d;
    }
  }

  lemma {:induction false} SameFront(d: Disk, d': Disk, n: nat)
    requires Grows(d, d') && n < |d|
    ensures Records(d[..n]) == Records(d'[..n])
    decreases n
  {
    if n > 0 {
      SameFront(d, d', n - 1);
      assert d[..n][..n - 1] == d[..n - 1] && d'[..n][..n - 1] == d'[..n - 1];
      SealedSame(d, d', n - 1);
    }
  }

  // A sealed segment does not change any more.
  lemma SealedSame(d: Disk, d': Disk, i: nat)
    requires Grows(d, d') && i + 1 < |d|
    ensures d'[i].recs == d[i].recs && d'[i].size == d[i].size
  {
    assert Sealed(d[i]) && d[i + 1].first == d[i].first + |d[i].recs|;
    assert Sealed(d'[i]) && d'[i + 1].first == d'[i].first + |d'[i].recs|;
  }

  lemma SegmentGrew(d: Disk, d': Disk, n: nat)
    requires Grows(d, d') && n < |d|
    ensures Whole(d[n]) <= |d[n].recs| && Whole(d'[n]) <= |d'[n].recs|
    ensures d[n].recs[..Whole(d[n])] <= d'[n].recs[..Whole(d'[n])]
  {
    SegmentAt(d, n);
    SegmentAt(d', n);
    WholeBound(d[n]);
    WholeBound(d'[n]);
    WholeMore(d[n].size, d'[n].size);
  }

  lemma RecordsGrow(d: Disk, d': Disk)
    requires Grows(d, d')
    ensures Records(d) <= Records(d')
  {
    hide Grows, Whole, Records, DiskOk;
    GrowsOk(d, d');
    if d == [] {
      NoRecords();
    } else {
      var n := |d| - 1;
      SameFront(d, d', n);
      RecordsPrefix(d', n + 1);
      SegmentGrew(d, d', n);
      RecordsSnoc(d);
      RecordsSnoc(d'[..n + 1]);
      assert d'[..n + 1][..n] == d'[..n];
    }
  }

  lemma NoRecords()
    ensures Records([]) == []
  {
  }

  lemma RecordsSnoc(d: Disk)
    requires d != [] && Whole(d[|d| - 1]) <= |d[|d| - 1].recs|
    ensures Records(d) == Records(d[..|d| - 1]) + d[|d| - 1].recs[..Whole(d[|d| - 1])]
  {
  }

  lemma GrowsOk(d: Disk, d': Disk)
    requires Grows(d, d')
    ensures DiskOk(d) && DiskOk(d') && |d| <= |d'|
  {
  }

  /** Live tailing is exactly-once: over any run of calls against a growing journal, what was delivered is precisely
      the journal's records between the first and the last mark, in order. */
  lemma {:induction false} TailRunExact(d: Disk, calls: seq<(Disk, Disk)>, t: Tail)
    requires TailOk(d, t) && Chain(d, calls) && AllSeekRight(d, calls, t)
    ensures var (t', delivered) := TailRun(d, calls, t);
      && TailOk(Final(d, calls), t') && 0 <= t.reader.lastGood <= t'.reader.lastGood <= |Records(Final(d, calls))|
      && delivered == Records(Final(d, calls))[t.reader.lastGood..t'.reader.lastGood]
    decreases |calls|
  {
    hide Records, TailOk, Grows, TailNext, SeeksRight, DiskOk;
    if calls == [] {
      MarkWithin(d, t);
    } else {
      var d1, d2 := calls[0].0, calls[0].1;
      TailExactIff(d, d1, d2, t);
      var (t1, res) := TailNext(d1, d2, t);
      TailRunExact(d2, calls[1..], t1);
      assert Final(d2, calls[1..]) == Final(d, calls);
      GrowsOk(d, d2);
      ChainGrows(d2, calls[1..]);
      RecordsGrow(d2, Final(d, calls));
      MarkWithin(d, t);
    }
  }

  /** Counters that never repeat are enough. */
  lemma {:induction false} DistinctSeeks(d: Disk, calls: seq<(Disk, Disk)>, t: Tail)
    requires TailOk(d, t) && Chain(d, calls) && forall c :: 0 <= c < |Final(d, calls)| ==> Sole(Final(d, calls), c)
    ensures AllSeekRight(d, calls, t)
    decreases |calls|
  {
    hide TailOk, TailNext, DiskOk, Sole, Records;
    if calls != [] {
      var d1, d2 := calls[0].0, calls[0].1;
      assert Final(d2, calls[1..]) == Final(d, calls);
      GrowsOk(d, d2);
      ChainGrows(d2, calls[1..]);
      CurrentWithin(d, t);
      if t.reader.current >= 0 {
        SoleBefore(d2, Final(d, calls), t.reader.current);
      }
      TailExactIff(d, d1, d2, t);
      DistinctSeeks(d2, calls[1..], TailNext(d1, d2, t).0);
    }
  }

  lemma CurrentWithin(d: Disk, t: Tail)
    requires TailOk(d, t)
    ensures t.reader.current < |d|
  {
  }

  lemma SoleBefore(d: Disk, d': Disk, c: nat)
    requires Grows(d, d') && c < |d| && Sole(d', c)
    ensures Sole(d, c)
  {
    hide DiskOk;
  }

  lemma MarkWithin(d: Disk, t: Tail)
    requires TailOk(d, t)
    ensures 0 <= t.reader.lastGood <= |Records(d)|
  {
    hide Records, OnBoundary, PlaceOf;
    RecordsNumbered(d);
    if t.reader.current >= 0 {
      var i := t.reader.current;
      SegmentAt(d, i);
      WholeBound(d[i]);
      Boundary(t.reader.offset);
      if i < |d| - 1 {
        FirstsIncrease(d, i, |d| - 1);
      }
    }
  }

  lemma {:induction false} ChainGrows(d: Disk, calls: seq<(Disk, Disk)>)
    requires DiskOk(d) && Chain(d, calls)
    ensures Grows(d, Final(d, calls))
    decreases |calls|
  {
    if calls != [] {
      ChainGrows(calls[0].1, calls[1..]);
      GrowsOn(d, calls[0].1, Final(d, calls));
    }
  }

  lemma GrowsOn(a: Disk, b: Disk, c: Disk)
    requires Grows(a, b) && Grows(b, c)
    ensures Grows(a, c)
  {
    hide DiskOk;
  }

  // ---------------------------------------------------------------------------------------------
  // The code
  // ---------------------------------------------------------------------------------------------

  class JournalTailer {
    var reader: Reader
    var needsReseek: bool

    ghost function State(): Tail
      reads this
    {
      Tail(reader, needsReseek)
    }

    constructor (d: Disk, cp: Checkpoint)
      requires Readable(d)
      ensures State() == NewTail(d, cp)
    {
      reader, needsReseek := NewReader(d), false;
      new;
      if cp.lastGood != 0 {
        SeekTo(d, cp);
      }
    }

    method SeekTo(d: Disk, cp: Checkpoint)
      requires Readable(d) && reader.known <= |d|
      modifies this`reader
      ensures reader == SeekFrom(d, old(reader), 0, cp)
    {
      hide FileBytes, DecodeHeader;
      var i := 0;
      while i < reader.known
        invariant 0 <= i <= reader.known && reader == old(reader)
        invariant SeekFrom(d, reader, i, cp) == SeekFrom(d, reader, 0, cp)
      {
        if Opens(d[i]) && OpenAt(d, reader, i).counter == cp.counter {
          reader := OpenAt(d, reader, i).(next := i + 1, offset := cp.offset, lastGood := cp.lastGood);
          return;
        }
        i := i + 1;
      }
      reader := reader.(isOpen := false, next := reader.known, lastGood := cp.lastGood);
    }

    /** `next`: `d1` is the directory the rescan lists, `d2` the one the files are then read from. */
    method Poll(d1: Disk, d2: Disk, ghost d0: Disk) returns (res: TailResult)
      requires TailOk(d0, State()) && Grows(d0, d1) && Grows(d1, d2) && Grows(d0, d2)
      modifies this
      ensures if SeeksRight(d2, old(State())) then Followed(d2, old(State()), State(), res)
              else res.Broken? || (res.NotYet? && Stuck(d2, State()))
      ensures old(needsReseek) && old(reader.lastGood) < Total(d1) ==> (res.Fetched? <==> SeeksRight(d2, old(State())))
    {
      hide TailOk, Grows, Next, Records, FileBytes, Readable, Total, SeeksRight, Stuck, Followed;
      ghost var t := State();
      TailExactIff(d0, d1, d2, t);
      if needsReseek && reader.lastGood < Total(d1) {
        TailProgressIff(d0, d1, d2, t);
      }
      if needsReseek {
        var cp := Checkpoint(reader.counter, reader.offset, reader.lastGood);
        reader := Rescan(d1, reader);
        if reader.offset >= HEADER {
          SeekTo(d2, cp);
        }
        needsReseek := false;
      } else if reader.isOpen {
        reader := reader.(fileSize := d2[reader.current].size);
      }
      assert reader == Prepared(d1, d2, t);
      var (r, found) := Next(d2, reader);
      reader := r;
      match found {
        case Delivered(rec) => res := Fetched(rec);
        case Corrupt(_) => res := Broken;
        case _ =>
          needsReseek := true;
          res := NotYet;
      }
    }
  }
}
