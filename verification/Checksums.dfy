/** The checksum of journal headers and records: computed by table, and what it notices. */
module Checksums {
  import opened Types
  import opened Bytes
  import opened JournalFormat

  // ---------------------------------------------------------------------------------------------
  // Words: each fact on its own
  // ---------------------------------------------------------------------------------------------

  function Xor(a: bv32, b: bv32): bv32 {
    a ^ b
  }

  function Half(a: bv32): bv32 {
    a >> 1
  }

  predicate Odd(a: bv32) {
    a & 1 == 1
  }

  function Poly(): bv32 {
    0xEDB8_8320
  }

  function Low(x: bv32): bv32 {
    x & 0xFF
  }

  function Mask(x: bv32, m: bv32): bv32 {
    x & m
  }

  function Rest(x: bv32): bv32 {
    x >> 8
  }

  lemma BitIs(c: bv32)
    ensures CrcBit(c) == if Odd(c) then Xor(Half(c), Poly()) else Half(c)
  {
  }

  lemma XorInjective(a: bv32, b: bv32, c: bv32)
    requires Xor(a, c) == Xor(b, c)
    ensures a == b
  {
  }

  lemma XorInjectiveRight(a: bv32, b: bv32, c: bv32)
    requires Xor(c, a) == Xor(c, b)
    ensures a == b
  {
  }

  lemma SwapBits(a: bv32, b: bv32, c: bv32)
    ensures (a ^ b) ^ c == (a ^ c) ^ b
  {
  }

  lemma XorSwap(a: bv32, b: bv32, c: bv32)
    ensures Xor(Xor(a, b), c) == Xor(Xor(a, c), b)
  {
    hide Xor;
    XorIs(a, b);
    XorIs(a ^ b, c);
    XorIs(a, c);
    XorIs(a ^ c, b);
    SwapBits(a, b, c);
  }

  lemma XorIs(a: bv32, b: bv32)
    ensures Xor(a, b) == a ^ b
  {
  }

  lemma HalfXor(x: bv32, y: bv32)
    ensures Half(Xor(x, y)) == Xor(Half(x), Half(y))
  {
  }

  lemma OddXor(x: bv32, y: bv32)
    requires !Odd(y)
    ensures Odd(Xor(x, y)) <==> Odd(x)
  {
  }

  lemma BitInjective(c: bv32, d: bv32)
    requires CrcBit(c) == CrcBit(d)
    ensures c == d
  {
  }

  lemma {:induction false} BitsInjective(c: bv32, d: bv32, n: nat)
    requires CrcBits(c, n) == CrcBits(d, n)
    ensures c == d
    decreases n
  {
    hide CrcBit;
    if n > 0 {
      BitsInjective(CrcBit(c), CrcBit(d), n - 1);
      BitInjective(c, d);
    }
  }

  lemma ByteBack(b: byte)
    ensures (b as bv8) as int == b && b as bv32 == (b as bv8) as bv32
  {
  }

  lemma WideInjective(a: bv8, b: bv8)
    requires a as bv32 == b as bv32
    ensures a == b
  {
  }

  lemma ByteInjective(a: byte, b: byte)
    requires a as bv32 == b as bv32
    ensures a == b
  {
    ByteBack(a);
    ByteBack(b);
    WideInjective(a as bv8, b as bv8);
  }

  // ---------------------------------------------------------------------------------------------
  // What the checksum notices
  // ---------------------------------------------------------------------------------------------

  lemma ByteIs(c: bv32, b: byte)
    ensures CrcByte(c, b) == CrcBits(Xor(c, b as bv32), 8)
  {
  }

  lemma StateInjective(c: bv32, d: bv32, b: byte)
    requires CrcByte(c, b) == CrcByte(d, b)
    ensures c == d
  {
    hide CrcBits, CrcByte, Xor;
    ByteIs(c, b);
    ByteIs(d, b);
    BitsInjective(Xor(c, b as bv32), Xor(d, b as bv32), 8);
    XorInjective(c, d, b as bv32);
  }

  lemma DataInjective(c: bv32, a: byte, b: byte)
    requires CrcByte(c, a) == CrcByte(c, b)
    ensures a == b
  {
    hide CrcBits, CrcByte, Xor;
    ByteIs(c, a);
    ByteIs(c, b);
    BitsInjective(Xor(c, a as bv32), Xor(c, b as bv32), 8);
    XorInjectiveRight(a as bv32, b as bv32, c);
    ByteInjective(a, b);
  }

  lemma {:induction false} FromInjective(c: bv32, d: bv32, s: seq<byte>)
    requires CrcFrom(c, s) == CrcFrom(d, s)
    ensures c == d
    decreases |s|
  {
    hide CrcByte;
    if s != [] {
      FromInjective(CrcByte(c, s[0]), CrcByte(d, s[0]), s[1..]);
      StateInjective(c, d, s[0]);
    }
  }

  lemma {:induction false} OneByteChanges(c: bv32, s: seq<byte>, i: nat, b: byte)
    requires i < |s| && b != s[i]
    ensures CrcFrom(c, s[i := b]) != CrcFrom(c, s)
    decreases |s|
  {
    hide CrcByte;
    var t := s[i := b];
    if i == 0 {
      assert t[1..] == s[1..];
      if CrcFrom(c, t) == CrcFrom(c, s) {
        FromInjective(CrcByte(c, b), CrcByte(c, s[0]), s[1..]);
        DataInjective(c, b, s[0]);
      }
    } else {
      assert t[1..] == s[1..][i - 1 := b];
      OneByteChanges(CrcByte(c, s[0]), s[1..], i - 1, b);
    }
  }

  lemma ChecksumIs(s: seq<byte>)
    ensures Checksum(s) == PutLe(Xor(CrcFrom(0xFFFF_FFFF, s), 0xFFFF_FFFF) as int, 4)
  {
    hide CrcFrom, PutLe;
  }

  lemma WordBytes(c: bv32, d: bv32)
    requires PutLe(Xor(c, 0xFFFF_FFFF) as int, 4) == PutLe(Xor(d, 0xFFFF_FFFF) as int, 4)
    ensures c == d
  {
    hide Xor, PutLe;
    WordsApart(Xor(c, 0xFFFF_FFFF), Xor(d, 0xFFFF_FFFF));
    XorInjective(c, d, 0xFFFF_FFFF);
  }

  lemma WordsApart(u: bv32, v: bv32)
    requires PutLe(u as int, 4) == PutLe(v as int, 4)
    ensures u == v
  {
    hide PutLe, Pow256;
    WordFits(u);
    WordFits(v);
    GetPut(u as int, 4);
    GetPut(v as int, 4);
    assert (u as int) as bv32 == u;
  }

  lemma WordFits(u: bv32)
    ensures 0 <= u as int < Pow256(4)
  {
    assert Pow256(4) == 0x1_0000_0000 by {
      assert Pow256(1) == 256 && Pow256(2) == 0x1_0000 && Pow256(3) == 0x100_0000;
    }
  }

  /** Whatever byte of whatever data is damaged, the checksum changes. */
  lemma ChecksumNotices(s: seq<byte>, i: nat, b: byte)
    requires i < |s| && b != s[i]
    ensures Checksum(s[i := b]) != Checksum(s)
  {
    hide CrcFrom, PutLe, Checksum, Xor;
    OneByteChanges(0xFFFF_FFFF, s, i, b);
    ChecksumIs(s);
    ChecksumIs(s[i := b]);
    if Checksum(s[i := b]) == Checksum(s) {
      WordBytes(CrcFrom(0xFFFF_FFFF, s[i := b]), CrcFrom(0xFFFF_FFFF, s));
    }
  }

  /** A header with one damaged byte is not taken for a header. */
  lemma HeaderNotices(first: nat, counter: nat, i: nat, b: byte)
    requires i < HEADER && b != EncodeHeader(first, counter)[i]
    ensures DecodeHeader(EncodeHeader(first, counter)[i := b]) == None
  {
    hide GetLe, PutLe, Checksum, Pow256;
    var body, s := HeaderBody(first, counter), EncodeHeader(first, counter);
    var t := s[i := b];
    assert s[..28] == body && s[28..] == Checksum(body);
    if i < 28 {
      assert t[..28] == body[i := b] && t[28..] == s[28..];
      ChecksumNotices(body, i, b);
    } else {
      assert t[..28] == body && t[28..][i - 28] != s[28..][i - 28];
    }
  }

  /** A record of full length reads as torn, whichever one of its bytes is damaged. */
  lemma RecordNotices(file: seq<byte>, offset: nat, r: Record, i: nat, b: byte, lastGood: int)
    requires RecordOk(r) && offset + RECORD <= |file| && i < RECORD && b != EncodeRecord(r)[i]
    requires file[offset..offset + RECORD] == EncodeRecord(r)[i := b]
    ensures ReadAt(file, offset, lastGood) == Torn
  {
    hide GetLe, PutLe, Checksum, Pow256;
    var body, s := RecordBody(r), EncodeRecord(r);
    var t, n := s[i := b], FIXED + PAYLOAD;
    assert s[..n] == body && s[n..] == Checksum(body);
    if i < n {
      assert t[..n] == body[i := b] && t[n..] == s[n..];
      ChecksumNotices(body, i, b);
    } else {
      assert t[..n] == body && t[n..][i - n] != s[n..][i - n];
    }
  }

  /** What reading at an offset finds, told from the bytes: nothing at the end of the file; a record exactly if all its
      bytes are there, its length is right and its checksum is that of the bytes in front; and otherwise a torn tail. */
  lemma ReadAtIff(file: seq<byte>, offset: nat, lastGood: int)
    ensures var res := ReadAt(file, offset, lastGood);
      && (res == EndOfSegment <==> offset == |file|)
      && (res.Got? || res.Gap? <==>
            && offset + 68 <= |file| && GetLe(file[offset..offset + 4]) == 48
            && Checksum(file[offset..offset + 64]) == file[offset + 64..offset + 68])
      && (res.Got? || res.Gap? ==>
            && offset + 68 <= |file|
            && res.record == Record(GetLe(file[offset + 4..offset + 12]), file[offset + 12], file[offset + 16..offset + 64])
            && (res.Got? <==> res.record.globalSeq == lastGood + 1))
  {
    hide GetLe, Checksum;
    if offset + 68 <= |file| {
      var s := file[offset..offset + 68];
      assert s[..64] == file[offset..offset + 64] && s[64..] == file[offset + 64..offset + 68];
      assert s[4..12] == file[offset + 4..offset + 12] && s[16..64] == file[offset + 16..offset + 64];
    }
  }

  // ---------------------------------------------------------------------------------------------
  // By table
  // ---------------------------------------------------------------------------------------------

  // A part with the lowest bit clear only moves down.
  lemma BitSplit(x: bv32, y: bv32)
    requires !Odd(y)
    ensures CrcBit(Xor(x, y)) == Xor(CrcBit(x), Half(y))
  {
    hide Xor, Half, Odd, Poly, CrcBit;
    BitIs(x);
    BitIs(Xor(x, y));
    HalfXor(x, y);
    OddXor(x, y);
    XorSwap(Half(x), Half(y), Poly());
  }

  predicate LowClear(y: bv32, n: nat)
    decreases n
  {
    n > 0 ==> !Odd(y) && LowClear(Half(y), n - 1)
  }

  function Down(y: bv32, n: nat): bv32
    decreases n
  {
    if n == 0 then y else Down(Half(y), n - 1)
  }

  lemma {:induction false} BitsSplit(x: bv32, y: bv32, n: nat)
    requires LowClear(y, n)
    ensures CrcBits(Xor(x, y), n) == Xor(CrcBits(x, n), Down(y, n))
    decreases n
  {
    hide Xor, Half, Odd, CrcBit;
    if n > 0 {
      BitSplit(x, y);
      BitsSplit(CrcBit(x), Half(y), n - 1);
    }
  }

  lemma Split(x: bv32)
    ensures x == Xor(Low(x), Mask(x, 0xFFFF_FF00))
  {
  }

  lemma HalfMask(x: bv32, m: bv32)
    ensures Half(Mask(x, m)) == Mask(Half(x), Half(m)) && (Odd(Mask(x, m)) ==> Odd(m))
  {
  }

  lemma {:induction false} MaskDown(x: bv32, m: bv32, n: nat)
    requires LowClear(m, n)
    ensures LowClear(Mask(x, m), n) && Down(Mask(x, m), n) == Mask(Down(x, n), Down(m, n))
    decreases n
  {
    hide Half, Odd, Mask;
    if n > 0 {
      HalfMask(x, m);
      MaskDown(Half(x), Half(m), n - 1);
    }
  }

  lemma MaskBits()
    ensures LowClear(0xFFFF_FF00, 8) && Down(0xFFFF_FF00, 8) == 0x00FF_FFFF
  {
    assert Half(0xFFFF_FF00) == 0x7FFF_FF80 && Half(0x7FFF_FF80) == 0x3FFF_FFC0;
    assert Half(0x3FFF_FFC0) == 0x1FFF_FFE0 && Half(0x1FFF_FFE0) == 0x0FFF_FFF0;
    assert Half(0x0FFF_FFF0) == 0x07FF_FFF8 && Half(0x07FF_FFF8) == 0x03FF_FFFC;
    assert Half(0x03FF_FFFC) == 0x01FF_FFFE && Half(0x01FF_FFFE) == 0x00FF_FFFF;
  }

  lemma EightDown(x: bv32)
    ensures Down(x, 8) == Rest(x)
  {
    var x2, x4, x6 := Half(Half(x)), Half(Half(Half(Half(x)))), Half(Half(Half(Half(Half(Half(x))))));
    assert Down(x, 8) == Down(x2, 6) == Down(x4, 4) == Down(x6, 2) == Half(Half(x6));
    HalfTwice(x);
  }

  lemma HalfTwice(x: bv32)
    ensures (((((((x >> 1) >> 1) >> 1) >> 1) >> 1) >> 1) >> 1) >> 1 == x >> 8
  {
  }

  lemma TopMask(x: bv32)
    ensures Mask(Rest(x), 0x00FF_FFFF) == Rest(x)
  {
  }

  /** Eight bits at once: the low byte goes through the table, the rest moves down. */
  lemma TableStep(x: bv32)
    ensures CrcBits(x, 8) == Xor(CrcBits(Low(x), 8), Rest(x))
  {
    hide LowClear, Down, CrcBits, Xor, Low, Half, Mask, Rest;
    Split(x);
    MaskBits();
    MaskDown(x, 0xFFFF_FF00, 8);
    EightDown(x);
    TopMask(x);
    BitsSplit(Low(x), Mask(x, 0xFFFF_FF00), 8);
  }

  lemma RestXor(c: bv32, b: bv8)
    ensures (c ^ (b as bv32)) >> 8 == c >> 8
  {
  }

  // A byte does not reach the rest.
  lemma ByteRest(c: bv32, b: byte)
    ensures Rest(Xor(c, b as bv32)) == Rest(c)
  {
    ByteBack(b);
    RestXor(c, b as bv8);
  }

  ghost predicate IsTable(t: seq<bv32>) {
    |t| == 256 && forall i :: 0 <= i < 256 ==> t[i] == CrcBits(i as bv32, 8)
  }

  // One entry of the table, bit by bit.
  method TableEntry(i: bv32) returns (c: bv32)
    ensures c == CrcBits(i, 8)
  {
    hide CrcBit;
    c := i;
    var k := 0;
    while k < 8
      invariant 0 <= k <= 8 && CrcBits(c, 8 - k) == CrcBits(i, 8)
    {
      c := CrcBit(c);
      k := k + 1;
    }
  }

  // `makeCrc32Table`
  method MakeTable() returns (table: seq<bv32>)
    ensures IsTable(table)
  {
    hide CrcBits;
    table := [];
    var i := 0;
    while i < 256
      invariant 0 <= i <= 256 && |table| == i
      invariant forall j :: 0 <= j < i ==> table[j] == CrcBits(j as bv32, 8)
    {
      var c := TableEntry(i as bv32);
      table := table + [c];
      i := i + 1;
    }
  }

  lemma LowIndex(x: bv32)
    ensures 0 <= Low(x) as int < 256 && (Low(x) as int) as bv32 == Low(x)
  {
  }

  lemma LookedUp(table: seq<bv32>, x: bv32)
    requires IsTable(table)
    ensures 0 <= Low(x) as int < |table| && table[Low(x) as int] == CrcBits(Low(x), 8)
  {
    hide CrcBits, Low;
    LowIndex(x);
  }

  /** `crc32`: a byte at a time through the table gives what shifting bit by bit gives. */
  method Crc32(data: seq<byte>, table: seq<bv32>) returns (crc: bv32)
    requires IsTable(table)
    ensures PutLe(crc as int, 4) == Checksum(data)
  {
    hide CrcByte, IsTable, Low, Xor, Rest, PutLe, Checksum;
    var c: bv32 := 0xFFFF_FFFF;
    var i := 0;
    assert data[0..] == data;
    while i < |data|
      invariant 0 <= i <= |data| && CrcFrom(c, data[i..]) == CrcFrom(0xFFFF_FFFF, data)
    {
      var x := Xor(c, data[i] as bv32);
      LookedUp(table, x);
      TableByte(c, data[i]);
      assert data[i..][0] == data[i] && data[i..][1..] == data[i + 1..];
      c := Xor(table[Low(x) as int], Rest(c));
      i := i + 1;
    }
    assert data[i..] == [];
    crc := Xor(c, 0xFFFF_FFFF);
    ChecksumIs(data);
  }

  lemma TableByte(c: bv32, b: byte)
    ensures var x := Xor(c, b as bv32); CrcByte(c, b) == Xor(CrcBits(Low(x), 8), Rest(c))
  {
    hide CrcBits, Low, Xor, Rest, CrcByte;
    ByteIs(c, b);
    TableStep(Xor(c, b as bv32));
    ByteRest(c, b);
  }

  // ---------------------------------------------------------------------------------------------
  // The check value
  // ---------------------------------------------------------------------------------------------

  lemma EightBits(c: bv32, s: seq<bv32>)
    requires |s| == 8 && CrcBit(c) == s[0] && forall i :: 0 <= i < 7 ==> CrcBit(s[i]) == s[i + 1]
    ensures CrcBits(c, 8) == s[7]
  {
    hide CrcBit;
    assert CrcBits(s[6], 1) == s[7] && CrcBits(s[5], 2) == s[7] && CrcBits(s[4], 3) == s[7] && CrcBits(s[3], 4) == s[7];
    assert CrcBits(s[2], 5) == s[7] && CrcBits(s[1], 6) == s[7] && CrcBits(s[0], 7) == s[7];
  }

  lemma Digit1()
    ensures CrcByte(0xFFFF_FFFF, 49) == 0x7C23_1048
  {
    hide CrcBits;
    var s: seq<bv32> := [0x7FFF_FFE7, 0xD247_7CD3, 0x849B_3D49, 0xAFF5_1D84,
                         0x57FA_8EC2, 0x2BFD_4761, 0xF846_2090, 0x7C23_1048];
    EightBits(0xFFFF_FFCE, s);
  }

  lemma Digit2()
    ensures CrcByte(0x7C23_1048, 50) == 0xB0AC_BB32
  {
    hide CrcBits;
    var s: seq<bv32> := [0x3E11_883D, 0xF2B0_473E, 0x7958_239F, 0xD114_92EF,
                         0x8532_CA57, 0xAF21_E60B, 0xBA28_7025, 0xB0AC_BB32];
    EightBits(0x7C23_107A, s);
  }

  lemma Digit3()
    ensures CrcByte(0xB0AC_BB32, 51) == 0x77B7_9C2D
  {
    hide CrcBits;
    var s: seq<bv32> := [0xB5EE_DEA0, 0x5AF7_6F50, 0x2D7B_B7A8, 0x16BD_DBD4,
                         0x0B5E_EDEA, 0x05AF_76F5, 0xEF6F_385A, 0x77B7_9C2D];
    EightBits(0xB0AC_BB01, s);
  }

  lemma Digit4()
    ensures CrcByte(0x77B7_9C2D, 52) == 0x641C_1F5C
  {
    hide CrcBits;
    var s: seq<bv32> := [0xD663_4D2C, 0x6B31_A696, 0x3598_D34B, 0xF774_EA85,
                         0x9602_F662, 0x4B01_7B31, 0xC838_3EB8, 0x641C_1F5C];
    EightBits(0x77B7_9C19, s);
  }

  lemma Digit5()
    ensures CrcByte(0x641C_1F5C, 53) == 0x340A_C5E3
  {
    hide CrcBits;
    var s: seq<bv32> := [0xDFB6_8C94, 0x6FDB_464A, 0x37ED_A325, 0xF64E_52B2,
                         0x7B27_2959, 0xD02B_178C, 0x6815_8BC6, 0x340A_C5E3];
    EightBits(0x641C_1F69, s);
  }

  lemma Digit6()
    ensures CrcByte(0x340A_C5E3, 54) == 0xF68D_2C9E
  {
    hide CrcBits;
    var s: seq<bv32> := [0xF7BD_E1CA, 0x7BDE_F0E5, 0xD057_FB52, 0x682B_FDA9,
                         0xD9AD_7DF4, 0x6CD6_BEFA, 0x366B_5F7D, 0xF68D_2C9E];
    EightBits(0x340A_C5D5, s);
  }

  lemma Digit7()
    ensures CrcByte(0xF68D_2C9E, 55) == 0xAFFC_9660
  {
    hide CrcBits;
    var s: seq<bv32> := [0x96FE_1574, 0x4B7F_0ABA, 0x25BF_855D, 0xFF67_418E,
                         0x7FB3_A0C7, 0xD261_5343, 0x8488_2A81, 0xAFFC_9660];
    EightBits(0xF68D_2CA9, s);
  }

  lemma Digit8()
    ensures CrcByte(0xAFFC_9660, 56) == 0x651F_2550
  {
    hide CrcBits;
    var s: seq<bv32> := [0x57FE_4B2C, 0x2BFF_2596, 0x15FF_92CB, 0xE747_4A45,
                         0x9E1B_2602, 0x4F0D_9301, 0xCA3E_4AA0, 0x651F_2550];
    EightBits(0xAFFC_9658, s);
  }

  lemma Digit9()
    ensures CrcByte(0x651F_2550, 57) == 0x340B_C6D9
  {
    hide CrcBits;
    var s: seq<bv32> := [0xDF37_1194, 0x6F9B_88CA, 0x37CD_C465, 0xF65E_6112,
                         0x7B2F_3089, 0xD02F_1B64, 0x6817_8DB2, 0x340B_C6D9];
    EightBits(0x651F_2569, s);
  }

  /** The checksum of "123456789" is the CRC-32 check value. */
  lemma CheckValue()
    ensures CrcFrom(0xFFFF_FFFF, [49, 50, 51, 52, 53, 54, 55, 56, 57]) ^ 0xFFFF_FFFF == 0xCBF4_3926
  {
    hide CrcByte;
    Digit1();
    Digit2();
    Digit3();
    Digit4();
    Digit5();
    Digit6();
    Digit7();
    Digit8();
    Digit9();
    assert CrcFrom(0x340B_C6D9, []) == 0x340B_C6D9;
    OneMore(0x651F_2550, [57]);
    OneMore(0xAFFC_9660, [56, 57]);
    OneMore(0xF68D_2C9E, [55, 56, 57]);
    OneMore(0x340A_C5E3, [54, 55, 56, 57]);
    OneMore(0x641C_1F5C, [53, 54, 55, 56, 57]);
    OneMore(0x77B7_9C2D, [52, 53, 54, 55, 56, 57]);
    OneMore(0xB0AC_BB32, [51, 52, 53, 54, 55, 56, 57]);
    OneMore(0x7C23_1048, [50, 51, 52, 53, 54, 55, 56, 57]);
    OneMore(0xFFFF_FFFF, [49, 50, 51, 52, 53, 54, 55, 56, 57]);
  }

  lemma OneMore(c: bv32, s: seq<byte>)
    requires s != []
    ensures CrcFrom(c, s) == CrcFrom(CrcByte(c, s[0]), s[1..])
  {
  }
}
