/** What a restart does to a journal: the number it goes on under, and the files it leaves behind unsynced. */
module Restarts {
  import opened Types
  import opened Bytes
  import opened JournalFormat
  import opened Journal
  import opened Readings
  import opened Durability

  // ---------------------------------------------------------------------------------------------
  // Resuming under another number
  // ---------------------------------------------------------------------------------------------

  // The directory after recovery handed the writer the number `last` and one record was appended.
  function Resumed(d: Disk, last: nat, counter: nat, rec: Record): Disk {
    if IsTorn(d) then
      var seg := Trimmed(Newest(d));
      WithNewest(d, seg.(recs := seg.recs + [rec], size := seg.size + RECORD))
    else WithSegment(d, Segment(last + 1, counter, [rec], HEADER + RECORD))
  }

  lemma ResumeTorn(d: Disk, counter: nat, rec: Record)
    requires DiskOk(d) && IsTorn(d) && RecordOk(rec) && rec.globalSeq == Total(d) + 1
    ensures var d' := Resumed(d, Total(d), counter, rec); DiskOk(d') && Records(d') == Records(d) + [rec]
  {
    hide Records, Pow256, DiskOk, SegmentOk, WellFormed, RecordOk, Trimmed, Whole;
    TrimNewest(d);
    var seg := Trimmed(Newest(d));
    var d1 := WithNewest(d, seg);
    var seg' := seg.(recs := seg.recs + [rec], size := seg.size + RECORD);
    SegmentAt(d1, |d1| - 1);
    EvenTotal(d1);
    SegmentGrows(seg, rec);
    ReplaceNewest(d1, seg');
    ReplaceNewest(d1, seg);
    assert WithNewest(d1, seg) == d1 && WithNewest(d1, seg') == WithNewest(d, seg');
    assert seg'.recs[..|seg.recs| + 1] == seg.recs + [rec] && seg.recs[..|seg.recs|] == seg.recs;
  }

  // A newest segment that is not torn is finished, or has no record yet.
  lemma NewestDone(d: Disk)
    requires DiskOk(d) && d != [] && !IsTorn(d)
    ensures if Newest(d).first == Total(d) + 1 then Whole(Newest(d)) == 0 else Sealed(Newest(d))
  {
    hide Pow256;
    SegmentAt(d, |d| - 1);
    WholeBound(Newest(d));
    EvenOrTorn(Newest(d));
  }

  lemma OneRecord(first: nat, counter: nat, rec: Record)
    requires RecordOk(rec) && counter < Pow256(8)
    ensures var seg := Segment(first, counter, [rec], HEADER + RECORD);
      && WellFormed(seg) && Whole(seg) == 1 && seg.recs[..1] == [rec]
      && (rec.globalSeq == first >= 1 ==> SegmentOk(seg))
  {
    hide Pow256;
  }

  lemma ResumeFresh(d: Disk, counter: nat, rec: Record)
    requires DiskOk(d) && !IsTorn(d) && RecordOk(rec) && rec.globalSeq == Total(d) + 1 && counter < Pow256(8)
    ensures var d' := Resumed(d, Total(d), counter, rec); DiskOk(d') && Records(d') == Records(d) + [rec]
  {
    hide Records, Pow256, DiskOk, SegmentOk, WellFormed, RecordOk, Whole, Total;
    RecordsNumbered(d);
    var seg := Segment(Total(d) + 1, counter, [rec], HEADER + RECORD);
    OneRecord(Total(d) + 1, counter, rec);
    if d != [] {
      NewestDone(d);
      SegmentAt(d, |d| - 1);
    }
    if d != [] && Newest(d).first == seg.first {
      ReplaceNewest(d, seg);
      ReplaceNewest(d, Newest(d));
      assert WithNewest(d, Newest(d)) == d;
    } else {
      AppendSegment(d, seg);
    }
  }

  // The segment a torn journal goes on in, with a record of the wrong number behind its own.
  lemma GapTorn(d: Disk, last: nat, counter: nat, rec: Record)
    requires DiskOk(d) && IsTorn(d) && RecordOk(rec) && rec.globalSeq == last + 1 && last > Total(d)
    ensures var d' := Resumed(d, last, counter, rec);
      && Readable(d')
      && ReadAll(d', NewReader(d')).0 == Records(d) && ReadAll(d', NewReader(d')).2 == Corrupt(rec)
  {
    hide Records, Pow256, DiskOk, Whole, ReadAll, WellFormed, SegmentOk, RecordOk, Trimmed, BreaksAt, Total, Readable, NewReader;
    var front, t := d[..|d| - 1], Trimmed(Newest(d));
    FrontOk(d);
    FrontClean(d);
    TornFacts(d);
    var seg' := t.(recs := t.recs + [rec], size := t.size + RECORD);
    BreaksBehind(t, rec);
    GapReads(front, seg', |t.recs|);
    assert seg'.recs[..|t.recs|] == t.recs;
  }

  lemma TornFacts(d: Disk)
    requires DiskOk(d) && IsTorn(d)
    ensures var t := Trimmed(Newest(d));
      && SegmentOk(t) && Even(t) && t.first == Newest(d).first && Total(d) == t.first - 1 + |t.recs|
      && Records(d) == Records(d[..|d| - 1]) + t.recs
  {
    hide Records, Pow256, DiskOk, Whole, WellFormed, SegmentOk, Trimmed;
    var t := Trimmed(Newest(d));
    SegmentAt(d, |d| - 1);
    TrimFacts(Newest(d));
    TrimNewest(d);
    ReplaceNewest(d, t);
    EvenTotal(WithNewest(d, t));
    assert t.recs[..|t.recs|] == t.recs;
  }

  // The front of a sound directory is not torn.
  lemma FrontClean(d: Disk)
    requires DiskOk(d) && d != []
    ensures !IsTorn(d[..|d| - 1])
  {
    if |d| > 1 {
      SealedBelow(d, |d| - 2);
    }
  }

  lemma BreaksBehind(t: Segment, rec: Record)
    requires SegmentOk(t) && Even(t) && RecordOk(rec) && rec.globalSeq != t.first + |t.recs|
    ensures BreaksAt(t.(recs := t.recs + [rec], size := t.size + RECORD), t.first - 1, |t.recs|)
  {
  }

  lemma GapFresh(d: Disk, last: nat, counter: nat, rec: Record)
    requires DiskOk(d) && !IsTorn(d) && RecordOk(rec) && rec.globalSeq == last + 1 && last > Total(d) && counter < Pow256(8)
    ensures var d' := Resumed(d, last, counter, rec);
      && d' == d + [Segment(last + 1, counter, [rec], HEADER + RECORD)] && Readable(d')
      && ReadAll(d', NewReader(d')).0 == Records(d) && ReadAll(d', NewReader(d')).2 == Corrupt(rec)
  {
    hide Records, Pow256, DiskOk, ReadAll, RecordOk, WellFormed, Whole;
    var seg := Segment(last + 1, counter, [rec], HEADER + RECORD);
    OneRecord(last + 1, counter, rec);
    GapReads(d, seg, 0);
    assert seg.recs[..0] == [];
    assert Records(d) + [] == Records(d);
  }

  /** Recovery may hand the writer any number at or past the journal's own (a snapshot can cover records the journal
      has lost). The journal stays readable exactly when it is the journal's own: then the new record reads back behind
      the old ones, and otherwise reading from the start delivers the old ones and stops at the new one as corrupt. */
  lemma ResumeIff(d: Disk, last: nat, counter: nat, rec: Record)
    requires DiskOk(d) && RecordOk(rec) && rec.globalSeq == last + 1 && last >= Total(d) && counter < Pow256(8)
    ensures var d' := Resumed(d, last, counter, rec);
      && Readable(d')
      && var (recs, _, res) := ReadAll(d', NewReader(d'));
         if last == Total(d) then recs == Records(d) + [rec] && res == EndOfJournal
         else recs == Records(d) && res == Corrupt(rec)
  {
    hide Records, Pow256, DiskOk, Resumed, ReadAll;
    if last == Total(d) {
      if IsTorn(d) {
        ResumeTorn(d, counter, rec);
      } else {
        ResumeFresh(d, counter, rec);
      }
      var d' := Resumed(d, last, counter, rec);
      ReadsSound(d');
      ResumedEven(d, last, counter, rec);
    } else if IsTorn(d) {
      GapTorn(d, last, counter, rec);
    } else {
      GapFresh(d, last, counter, rec);
    }
  }

  lemma ResumedEven(d: Disk, last: nat, counter: nat, rec: Record)
    requires DiskOk(d)
    ensures !IsTorn(Resumed(d, last, counter, rec))
  {
    hide DiskOk, SegmentOk, Whole, Trimmed;
    if IsTorn(d) {
      SegmentAt(d, |d| - 1);
      TrimEven(Newest(d));
      var t := Trimmed(Newest(d));
      assert t.size + RECORD - HEADER == RECORD * (|t.recs| + 1);
    }
  }

  // ---------------------------------------------------------------------------------------------
  // A restart over a file that was not synced
  // ---------------------------------------------------------------------------------------------

  // A process died with the last record of a complete newest file written but not synced; nothing was torn.
  ghost predicate Unsynced(w: World) {
    && Inv(w) && w.writer.Down? && w.disk != [] && Sealed(Newest(w.disk))
    && w.marks[|w.disk| - 1] <= Newest(w.disk).size - RECORD && Total(w.disk) + 2 < Pow256(8)
  }

  // Recovery starts a new segment, in which one record is written, synced and acknowledged.
  function Restart(kind: byte, payload: seq<byte>): seq<Step> {
    [Recover, Open, Sync, Write(kind, payload), Sync]
  }

  // The steps one after the other; none of them is impossible.
  ghost predicate Leads(w: World, steps: seq<Step>, w': World)
    decreases |steps|
  {
    if steps == [] then w == w' else Enabled(w, steps[0]) && Leads(Do(w, steps[0]), steps[1..], w')
  }

  // Where that leads: the old file is still not durable, the new one is.
  function Restarted(w: World, kind: byte, payload: seq<byte>): World
    requires Total(w.disk) >= 0
  {
    var rec := Record(Total(w.disk) + 1, kind, payload);
    World(w.disk + [Segment(Total(w.disk) + 1, 0, [rec], HEADER + RECORD)], w.marks + [HEADER + RECORD],
          Up(true, 1, Total(w.disk) + 1), w.acked + {rec})
  }

  // The new segment once its header is durable.
  function Reopened(w: World): World
    requires Total(w.disk) >= 0
  {
    World(w.disk + [Segment(Total(w.disk) + 1, 0, [], HEADER)], w.marks + [HEADER], Up(true, 1, Total(w.disk)), w.acked)
  }

  lemma RestartOpens(w: World)
    requires Unsynced(w)
    ensures Total(w.disk) >= 0 && Leads(w, [Recover, Open, Sync], Reopened(w))
  {
    hide DiskOk, Held, Total, Leads, Marked;
    var d, total := w.disk, Total(w.disk);
    MarksMatch(w);
    SealedFacts(d);
    var w1 := w.(writer := Up(false, 0, total));
    var w2 := Reopened(w).(marks := w.marks + [0]);
    assert Do(w, Recover) == w1;
    assert Do(w1, Open) == w2;
    assert w2.marks[|d| := HEADER] == Reopened(w).marks && w.acked + {} == w.acked;
    assert Do(w2, Sync) == Reopened(w);
    Leading(w2, [Sync], Reopened(w));
    Leading(w1, [Open, Sync], Reopened(w));
    Leading(w, [Recover, Open, Sync], Reopened(w));
  }

  lemma RestartWrites(w: World, kind: byte, payload: seq<byte>)
    requires Unsynced(w) && |payload| == PAYLOAD && Total(w.disk) >= 0
    ensures Leads(Reopened(w), [Write(kind, payload), Sync], Restarted(w, kind, payload))
  {
    hide DiskOk, Held, Total, Leads, Inv;
    var w3, w5, rec := Reopened(w), Restarted(w, kind, payload), Record(Total(w.disk) + 1, kind, payload);
    var w4 := w5.(marks := w3.marks, acked := w.acked);
    MarksMatch(w);
    assert [] + [rec] == [rec] && WithNewest(w3.disk, w5.disk[|w.disk|]) == w5.disk;
    assert Do(w3, Write(kind, payload)) == w4;
    assert w4.marks[|w.disk| := HEADER + RECORD] == w5.marks && (set r | r in [rec]) == {rec};
    assert Do(w4, Sync) == w5;
    Leading(w4, [Sync], w5);
    Leading(w3, [Write(kind, payload), Sync], w5);
  }

  lemma MarksMatch(w: World)
    requires Inv(w)
    ensures |w.marks| == |w.disk|
  {
  }

  lemma RestartLeads(w: World, kind: byte, payload: seq<byte>)
    requires Unsynced(w) && |payload| == PAYLOAD
    ensures Total(w.disk) >= 0 && Leads(w, Restart(kind, payload), Restarted(w, kind, payload))
  {
    hide Leads, Unsynced, Total, Restarted;
    RestartOpens(w);
    RestartWrites(w, kind, payload);
    LeadsOn(w, [Recover, Open, Sync], Reopened(w), [Write(kind, payload), Sync], Restarted(w, kind, payload));
    assert [Recover, Open, Sync] + [Write(kind, payload), Sync] == Restart(kind, payload);
  }

  lemma {:induction false} LeadsOn(w: World, steps: seq<Step>, w1: World, more: seq<Step>, w2: World)
    requires Leads(w, steps, w1) && Leads(w1, more, w2)
    ensures Leads(w, steps + more, w2)
    decreases |steps|
  {
    hide Enabled, Do;
    if steps == [] {
      assert steps + more == more;
    } else {
      LeadsOn(Do(w, steps[0]), steps[1..], w1, more, w2);
      assert (steps + more)[1..] == steps[1..] + more;
    }
  }

  lemma Leading(w: World, steps: seq<Step>, w': World)
    requires steps != [] && Enabled(w, steps[0])
    requires if |steps| == 1 then Do(w, steps[0]) == w' else Leads(Do(w, steps[0]), steps[1..], w')
    ensures Leads(w, steps, w')
  {
    hide Enabled, Do;
    if |steps| == 1 {
      assert steps[1..] == [];
    }
  }

  // A complete newest segment is not torn, and the next number names another file.
  lemma SealedFacts(d: Disk)
    requires DiskOk(d) && d != [] && Sealed(Newest(d))
    ensures !IsTorn(d) && Newest(d).first <= Total(d) == Newest(d).first - 1 + |Newest(d).recs|
    ensures Newest(d).first >= 1
  {
    SegmentAt(d, |d| - 1);
    EvenTotal(d);
  }

  // The last record of segment `i` goes; nothing else does.
  function LastRecordOff(d: Disk, i: nat): (cuts: seq<nat>)
    requires i < |d| && d[i].size >= RECORD
    ensures |cuts| == |d| && forall k :: 0 <= k < |d| ==> cuts[k] == if k == i then d[i].size - RECORD else d[k].size
  {
    seq(|d|, k requires 0 <= k < |d| => if k == i then d[i].size - RECORD else d[k].size)
  }

  // Reading the two files once the last record of the first is gone.
  lemma RestartReads(d: Disk, rec: Record)
    requires DiskOk(d) && d != [] && Sealed(Newest(d)) && RecordOk(rec) && rec.globalSeq == Total(d) + 1
    ensures Newest(d).size >= RECORD
    ensures var seg := Segment(rec.globalSeq, 0, [rec], HEADER + RECORD);
      var d' := CutAll(d + [seg], LastRecordOff(d + [seg], |d| - 1));
      && Readable(d')
      && rec !in ReadAll(d', NewReader(d')).0 && ReadAll(d', NewReader(d')).2 == Corrupt(rec)
  {
    hide DiskOk, Total, CutTo, ReadAll, Records, Whole, Readable, WellFormed, RecordOk, Sealed, IsTorn, Pow256;
    var last, seg := Newest(d), Segment(rec.globalSeq, 0, [rec], HEADER + RECORD);
    SealedSize(last);
    var front := WithNewest(d, CutTo(last, last.size - RECORD));
    RecordOff(d);
    OneRecord(rec.globalSeq, 0, rec) by { PowersGrow(8); }
    CutBehind(d, seg, LastRecordOff(d + [seg], |d| - 1));
    GapReads(front, seg, 0);
    assert seg.recs[..0] == [] && Records(front) + [] == Records(front);
    RecordsNumbered(front);
  }

  lemma SealedSize(seg: Segment)
    requires Sealed(seg)
    ensures seg.size >= HEADER + RECORD
  {
  }

  /** A process dies with its last record written but not synced, the restart finds the file complete and starts a new
      one, and a record is acknowledged there. If then the power fails and the unsynced record goes, reading stops in
      front of the acknowledged record and calls it corrupt. */
  lemma RestartLosesAck(w: World, kind: byte, payload: seq<byte>)
    requires Unsynced(w) && |payload| == PAYLOAD
    ensures Total(w.disk) >= 0 && Newest(w.disk).size >= RECORD
    ensures var w', rec := Restarted(w, kind, payload), Record(Total(w.disk) + 1, kind, payload);
      var cuts := LastRecordOff(w'.disk, |w.disk| - 1);
      var d' := CutAll(w'.disk, cuts);
      && Leads(w, Restart(kind, payload), w') && rec in w'.acked && Enabled(w', Crash(cuts, w'.marks))
      && Readable(d') && rec !in ReadAll(d', NewReader(d')).0 && ReadAll(d', NewReader(d')).2 == Corrupt(rec)
  {
    hide DiskOk, Held, Total, Leads, CutTo, ReadAll, Readable, WriterOk, Restart, CutAll, LastRecordOff, Enabled, Marked;
    RestartLeads(w, kind, payload);
    RestartReads(w.disk, Record(Total(w.disk) + 1, kind, payload));
    CutAllowed(w, kind, payload);
  }

  lemma CutAllowed(w: World, kind: byte, payload: seq<byte>)
    requires Unsynced(w) && Total(w.disk) >= 0
    ensures Newest(w.disk).size >= RECORD
    ensures var w' := Restarted(w, kind, payload); Enabled(w', Crash(LastRecordOff(w'.disk, |w.disk| - 1), w'.marks))
  {
    hide DiskOk, Held, Total, WriterOk;
  }

  lemma CutBehind(d: Disk, seg: Segment, cuts: seq<nat>)
    requires DiskOk(d) && d != [] && WellFormed(seg) && Newest(d).size >= RECORD && cuts == LastRecordOff(d + [seg], |d| - 1)
    ensures CutAll(d + [seg], cuts) == WithNewest(d, CutTo(Newest(d), Newest(d).size - RECORD)) + [seg]
  {
    hide DiskOk, WellFormed, CutTo;
    forall k | 0 <= k < |d| - 1 ensures CutTo(d[k], d[k].size) == d[k] {
      SegmentAt(d, k);
      CutWhole(d[k]);
    }
    CutWhole(seg);
  }

  lemma RecordOff(d: Disk)
    requires DiskOk(d) && d != [] && Sealed(Newest(d))
    ensures var front := WithNewest(d, CutTo(Newest(d), Newest(d).size - RECORD));
      DiskOk(front) && !IsTorn(front) && Total(front) == Total(d) - 1
  {
    hide DiskOk, WellFormed, Pow256, SegmentOk;
    var seg := Newest(d);
    SegmentAt(d, |d| - 1);
    CutOk(seg, seg.size - RECORD);
    CutShape(seg, seg.size - RECORD);
    ReplaceNewest(d, CutTo(seg, seg.size - RECORD));
    assert seg.size - RECORD - HEADER == RECORD * (|seg.recs| - 1);
  }

  // ---------------------------------------------------------------------------------------------
  // Such a history
  // ---------------------------------------------------------------------------------------------

  lemma {:induction false} AfterLeads(steps: seq<Step>, more: seq<Step>, w: World)
    requires Leads(After(steps), more, w)
    ensures After(steps + more) == w
    decreases |more|
  {
    hide Enabled, Do;
    if more == [] {
      assert steps + more == steps;
    } else {
      assert (steps + [more[0]])[..|steps|] == steps;
      AfterLeads(steps + [more[0]], more[1..], w);
      assert steps + [more[0]] + more[1..] == steps + more;
    }
  }

  // One record written to a new journal, and the process killed before it is synced.
  function KilledEarly(payload: seq<byte>): seq<Step> {
    [Recover, Open, Sync, Write(0, payload), Crash([HEADER + RECORD], [HEADER])]
  }

  function Killed(payload: seq<byte>): World {
    World([Segment(1, 0, [Record(1, 0, payload)], HEADER + RECORD)], [HEADER], Down, {})
  }

  // The worlds on the way.
  function Started(n: nat): World {
    World([Segment(1, 0, [], HEADER)], [n], Up(true, 1, 0), {})
  }

  function Written(payload: seq<byte>): World {
    World([Segment(1, 0, [Record(1, 0, payload)], HEADER + RECORD)], [HEADER], Up(true, 1, 1), {})
  }

  lemma FirstSteps()
    ensures Leads(Fresh, [Recover, Open, Sync], Started(HEADER))
  {
    hide Leads;
    PowersGrow(8);
    var w1 := World([], [], Up(false, 0, 0), {});
    assert Do(Fresh, Recover) == w1;
    assert Do(w1, Open) == Started(0);
    assert Do(Started(0), Sync) == Started(HEADER);
    Leading(Started(0), [Sync], Started(HEADER));
    Leading(w1, [Open, Sync], Started(HEADER));
    Leading(Fresh, [Recover, Open, Sync], Started(HEADER));
  }

  lemma FirstWrite(payload: seq<byte>)
    requires |payload| == PAYLOAD
    ensures Leads(Started(HEADER), [Write(0, payload), Crash([HEADER + RECORD], [HEADER])], Killed(payload))
  {
    hide Leads;
    PowersGrow(8);
    var w, rec := Started(HEADER), Record(1, 0, payload);
    assert [] + [rec] == [rec] && w.disk[..0] + [Segment(1, 0, [rec], HEADER + RECORD)] == Written(payload).disk;
    assert Do(w, Write(0, payload)) == Written(payload);
    CutFull(Written(payload).disk[0]);
    assert Do(Written(payload), Crash([HEADER + RECORD], [HEADER])) == Killed(payload);
    Leading(Written(payload), [Crash([HEADER + RECORD], [HEADER])], Killed(payload));
    Leading(w, [Write(0, payload), Crash([HEADER + RECORD], [HEADER])], Killed(payload));
  }

  lemma CutFull(seg: Segment)
    requires |seg.recs| == 1 && seg.size == HEADER + RECORD
    ensures CutAll([seg], [HEADER + RECORD]) == [seg]
  {
    assert CutTo(seg, HEADER + RECORD) == seg;
  }

  /** The situation arises from an empty directory, and so does the loss. */
  lemma LossHappens(payload: seq<byte>)
    requires |payload| == PAYLOAD
    ensures Unsynced(After(KilledEarly(payload)))
    ensures exists steps :: !Intact(After(steps).disk, After(steps).acked)
  {
    hide Leads, After, Intact, CutAll, LastRecordOff, ReadAll;
    PowersGrow(8);
    AfterNothing();
    FirstSteps();
    assert [] + [Recover, Open, Sync] == [Recover, Open, Sync];
    AfterLeads([], [Recover, Open, Sync], Started(HEADER));
    FirstWrite(payload);
    AfterLeads([Recover, Open, Sync], [Write(0, payload), Crash([HEADER + RECORD], [HEADER])], Killed(payload));
    assert [Recover, Open, Sync] + [Write(0, payload), Crash([HEADER + RECORD], [HEADER])] == KilledEarly(payload);
    var w := Killed(payload);
    assert Unsynced(w);
    RestartLosesAck(w, 0, payload);
    AfterLeads(KilledEarly(payload), Restart(0, payload), Restarted(w, 0, payload));
    LossThen(KilledEarly(payload) + Restart(0, payload), Record(Total(w.disk) + 1, 0, payload),
             LastRecordOff(Restarted(w, 0, payload).disk, |w.disk| - 1));
  }

  lemma AfterNothing()
    ensures After([]) == Fresh
  {
  }

  lemma LossThen(steps: seq<Step>, rec: Record, cuts: seq<nat>)
    requires var w := After(steps);
      && rec in w.acked && Enabled(w, Crash(cuts, w.marks)) && Readable(CutAll(w.disk, cuts))
      && rec !in ReadAll(CutAll(w.disk, cuts), NewReader(CutAll(w.disk, cuts))).0
    ensures var more := steps + [Crash(cuts, After(steps).marks)]; !Intact(After(more).disk, After(more).acked)
  {
    hide ReadAll;
    var more := steps + [Crash(cuts, After(steps).marks)];
    assert more[..|steps|] == steps;
  }

  lemma PowersGrow(n: nat)
    requires n >= 1
    ensures Pow256(n) >= 256
  {
  }
}
