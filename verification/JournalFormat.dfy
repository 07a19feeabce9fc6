/** The bytes of a journal segment: a header and fixed-size records, each with its checksum. */
module JournalFormat {
  import opened Types
  import opened Bytes

  const MAGIC := 0x534A5856
  const VERSION := 1
  const HEADER := 32
  const FIXED := 16
  const PAYLOAD := 48
  const RECORD := 68

  // A journaled command: its number, its kind and the command's 48 bytes.
  datatype Record = Record(globalSeq: nat, kind: byte, payload: seq<byte>)

  predicate RecordOk(r: Record) {
    r.globalSeq < Pow256(8) && |r.payload| == PAYLOAD
  }

  // ---------------------------------------------------------------------------------------------
  // CRC-32 (IEEE 802.3, reflected)
  // ---------------------------------------------------------------------------------------------

  function CrcBit(c: bv32): bv32 {
    if c & 1 == 1 then (c >> 1) ^ 0xEDB8_8320 else c >> 1
  }

  function CrcBits(c: bv32, n: nat): bv32
    decreases n
  {
    if n == 0 then c else CrcBits(CrcBit(c), n - 1)
  }

  function CrcByte(c: bv32, b: byte): bv32 {
    CrcBits(c ^ (b as bv32), 8)
  }

  function CrcFrom(c: bv32, s: seq<byte>): bv32
    decreases |s|
  {
    if s == [] then c else CrcFrom(CrcByte(c, s[0]), s[1..])
  }

  function Checksum(s: seq<byte>): (r: seq<byte>)
    ensures |r| == 4
  {
    PutLe((CrcFrom(0xFFFF_FFFF, s) ^ 0xFFFF_FFFF) as int, 4)
  }

  // ---------------------------------------------------------------------------------------------
  // Encoding
  // ---------------------------------------------------------------------------------------------

  function RecordBody(r: Record): (s: seq<byte>)
    requires |r.payload| == PAYLOAD
    ensures |s| == FIXED + PAYLOAD
  {
    PutLe(PAYLOAD, 4) + PutLe(r.globalSeq, 8) + [r.kind] + [0, 0, 0] + r.payload
  }

  function EncodeRecord(r: Record): (s: seq<byte>)
    requires |r.payload| == PAYLOAD
    ensures |s| == RECORD
  {
    RecordBody(r) + Checksum(RecordBody(r))
  }

  function HeaderBody(first: nat, counter: nat): (s: seq<byte>)
    ensures |s| == 28
  {
    PutLe(MAGIC, 4) + PutLe(VERSION, 4) + PutLe(first, 8) + PutLe(counter, 8) + [0, 0, 0, 0]
  }

  function EncodeHeader(first: nat, counter: nat): (s: seq<byte>)
    ensures |s| == HEADER
  {
    HeaderBody(first, counter) + Checksum(HeaderBody(first, counter))
  }

  // ---------------------------------------------------------------------------------------------
  // Decoding
  // ---------------------------------------------------------------------------------------------

  // The segment's counter, if magic, version and checksum are right.
  function DecodeHeader(s: seq<byte>): Option<nat>
    requires |s| == HEADER
  {
    if GetLe(s[..4]) == MAGIC && GetLe(s[4..8]) == VERSION && Checksum(s[..28]) == s[28..]
    then Some(GetLe(s[16..24])) else None
  }

  datatype ReadOne =
    | Got(record: Record)
    | EndOfSegment
    | Torn
    | Gap(record: Record)

  // `readOneRecord` on a file of these bytes.
  function ReadAt(file: seq<byte>, offset: nat, lastGood: int): ReadOne {
    if offset == |file| then EndOfSegment
    else if offset + FIXED > |file| then Torn
    else if GetLe(file[offset..offset + 4]) != PAYLOAD then Torn
    else if offset + RECORD > |file| then Torn
    else
      var s := file[offset..offset + RECORD];
      if Checksum(s[..FIXED + PAYLOAD]) != s[FIXED + PAYLOAD..] then Torn
      else
        var r := Record(GetLe(s[4..12]), s[12], s[FIXED..FIXED + PAYLOAD]);
        if r.globalSeq != lastGood + 1 then Gap(r) else Got(r)
  }

  lemma SmallNumber(n: nat)
    requires n < 256
    ensures GetLe(PutLe(n, 4)) == n
  {
    assert Pow256(1) == 256 && Pow256(4) >= Pow256(1) by {
      assert Pow256(2) == 256 * Pow256(1) && Pow256(3) == 256 * Pow256(2) && Pow256(4) == 256 * Pow256(3);
    }
    GetPut(n, 4);
  }

  lemma MagicNumber()
    ensures GetLe(PutLe(MAGIC, 4)) == MAGIC
  {
    assert Pow256(4) == 0x1_0000_0000 by {
      assert Pow256(1) == 256 && Pow256(2) == 0x1_0000 && Pow256(3) == 0x100_0000;
    }
    GetPut(MAGIC, 4);
  }

  /** A header reads back. */
  lemma HeaderReads(first: nat, counter: nat)
    requires counter < Pow256(8)
    ensures DecodeHeader(EncodeHeader(first, counter)) == Some(counter)
  {
    hide GetLe, PutLe, Checksum, Pow256;
    var s := EncodeHeader(first, counter);
    assert s[..4] == PutLe(MAGIC, 4) && s[4..8] == PutLe(VERSION, 4) && s[16..24] == PutLe(counter, 8);
    assert s[..28] == HeaderBody(first, counter);
    MagicNumber();
    SmallNumber(VERSION);
    GetPut(counter, 8);
  }

  /** A record written whole at an offset reads back, and is accepted exactly when it is the next number. */
  lemma RecordReads(file: seq<byte>, offset: nat, r: Record, lastGood: int)
    requires RecordOk(r) && offset + RECORD <= |file| && file[offset..offset + RECORD] == EncodeRecord(r)
    ensures ReadAt(file, offset, lastGood) == if r.globalSeq == lastGood + 1 then Got(r) else Gap(r)
  {
    hide GetLe, PutLe, Checksum, Pow256;
    var s := EncodeRecord(r);
    assert file[offset..offset + 4] == s[..4];
    assert s[..4] == PutLe(PAYLOAD, 4) && s[4..12] == PutLe(r.globalSeq, 8) && s[12] == r.kind;
    assert s[FIXED..FIXED + PAYLOAD] == r.payload && s[..FIXED + PAYLOAD] == RecordBody(r);
    SmallNumber(PAYLOAD);
    GetPut(r.globalSeq, 8);
  }

  /** A record cut short reads as torn, whatever part of it is there. */
  lemma CutReads(file: seq<byte>, offset: nat, lastGood: int)
    requires offset < |file| < offset + RECORD
    ensures ReadAt(file, offset, lastGood) == Torn
  {
  }
}
