/** The order-entry wire protocol: messages, frames and the reassembling decoder. */
module Framing {
  import opened Types
  import opened Bytes

  // ---------------------------------------------------------------------------------------------
  // Fields
  // ---------------------------------------------------------------------------------------------

  datatype Kind = U8 | U32 | U64 | I64 | Token

  datatype Value = Num(n: int) | Raw(bytes: seq<byte>)

  function Width(k: Kind): nat {
    match k
    case U8 => 1
    case U32 => 4
    case U64 => 8
    case I64 => 8
    case Token => 32
  }

  // The fields of a payload, in order.
  datatype Layout = End | Then(kind: Kind, rest: Layout)

  datatype Values = Done | And(value: Value, rest: Values)

  function TotalWidth(layout: Layout): nat {
    match layout
    case End => 0
    case Then(k, rest) => Width(k) + TotalWidth(rest)
  }

  predicate Fits(k: Kind, v: Value) {
    match k
    case Token => v.Raw? && |v.bytes| == 32
    case I64 => v.Num? && FitsSigned(v.n, 8)
    case _ => v.Num? && FitsUnsigned(v.n, Width(k))
  }

  function PutField(k: Kind, v: Value): (s: seq<byte>)
    requires Fits(k, v)
    ensures |s| == Width(k)
  {
    match k
    case Token => v.bytes
    case I64 => assert ToUnsigned(v.n, 8) >= 0; PutLe(ToUnsigned(v.n, 8), 8)
    case _ => PutLe(v.n, Width(k))
  }

  function GetField(k: Kind, s: seq<byte>): Value
    requires |s| == Width(k)
  {
    match k
    case Token => Raw(s)
    case I64 => Num(ToSigned(GetLe(s), 8))
    case _ => Num(GetLe(s))
  }

  lemma FieldRoundTrip(k: Kind, v: Value)
    requires Fits(k, v)
    ensures GetField(k, PutField(k, v)) == v
  {
    match k
    case Token =>
    case I64 => SignedRoundTrip(v.n, 8); GetPut(ToUnsigned(v.n, 8), 8);
    case _ => GetPut(v.n, Width(k));
  }

  lemma FieldInverse(k: Kind, s: seq<byte>)
    requires |s| == Width(k)
    ensures Fits(k, GetField(k, s)) && PutField(k, GetField(k, s)) == s
  {
    GetBound(s);
    PutGet(s);
    if k.I64? {
      UnsignedRoundTrip(GetLe(s), 8);
    }
  }

  predicate AllFit(layout: Layout, vs: Values) {
    match layout
    case End => vs.Done?
    case Then(k, rest) => vs.And? && Fits(k, vs.value) && AllFit(rest, vs.rest)
  }

  function PutAll(layout: Layout, vs: Values): (s: seq<byte>)
    requires AllFit(layout, vs)
    ensures |s| == TotalWidth(layout)
  {
    match layout
    case End => []
    case Then(k, rest) => PutField(k, vs.value) + PutAll(rest, vs.rest)
  }

  function GetAll(layout: Layout, s: seq<byte>): Values
    requires |s| == TotalWidth(layout)
  {
    match layout
    case End => Done
    case Then(k, rest) => And(GetField(k, s[..Width(k)]), GetAll(rest, s[Width(k)..]))
  }

  lemma {:induction false} LayoutRoundTrip(layout: Layout, vs: Values)
    requires AllFit(layout, vs)
    ensures GetAll(layout, PutAll(layout, vs)) == vs
  {
    match layout
    case End =>
    case Then(k, rest) =>
      var s := PutAll(layout, vs);
      assert s[..Width(k)] == PutField(k, vs.value) && s[Width(k)..] == PutAll(rest, vs.rest);
      FieldRoundTrip(k, vs.value);
      LayoutRoundTrip(rest, vs.rest);
  }

  lemma {:induction false} LayoutInverse(layout: Layout, s: seq<byte>)
    requires |s| == TotalWidth(layout)
    ensures AllFit(layout, GetAll(layout, s)) && PutAll(layout, GetAll(layout, s)) == s
  {
    hide Fits, PutField, GetField;
    match layout
    case End =>
    case Then(k, rest) =>
      FieldInverse(k, s[..Width(k)]);
      LayoutInverse(rest, s[Width(k)..]);
      assert s == s[..Width(k)] + s[Width(k)..];
  }

  // Write one field at its place.
  method WriteField(dst: array<byte>, at: nat, k: Kind, v: Value)
    requires Fits(k, v) && at + Width(k) <= dst.Length
    modifies dst
    ensures dst[..] == old(dst[..at]) + PutField(k, v) + old(dst[at + Width(k)..])
  {
    match k {
      case Token => Copy(dst, at, v.bytes);
      case I64 =>
        SignedRoundTrip(v.n, 8);
        Put(dst, at, ToUnsigned(v.n, 8), 8);
      case _ => Put(dst, at, v.n, Width(k));
    }
  }

  // Write the fields one behind the other.
  method WriteAll(dst: array<byte>, at: nat, layout: Layout, vs: Values)
    requires AllFit(layout, vs) && at + TotalWidth(layout) <= dst.Length
    modifies dst
    ensures dst[..] == old(dst[..at]) + PutAll(layout, vs) + old(dst[at + TotalWidth(layout)..])
    decreases layout
  {
    hide Fits, PutField, PutAll;
    NoFields(vs);
    match layout {
      case End => assert dst[..] == dst[..at] + [] + dst[at..];
      case Then(k, rest) =>
        ghost var s0 := dst[..];
        WriteField(dst, at, k, vs.value);
        ghost var s1 := dst[..];
        WriteAll(dst, at + Width(k), rest, vs.rest);
        Joins(s0, s1, dst[..], at, layout, vs);
    }
  }

  lemma NoFields(vs: Values)
    ensures vs.Done? ==> PutAll(End, vs) == []
  {
  }

  lemma Joins(s0: seq<byte>, s1: seq<byte>, s2: seq<byte>, at: nat, layout: Layout, vs: Values)
    requires layout.Then? && AllFit(layout, vs) && at + TotalWidth(layout) <= |s0|
    requires s1 == s0[..at] + PutField(layout.kind, vs.value) + s0[at + Width(layout.kind)..]
    requires var on := at + Width(layout.kind); s2 == s1[..on] + PutAll(layout.rest, vs.rest) + s1[on + TotalWidth(layout.rest)..]
    ensures s2 == s0[..at] + PutAll(layout, vs) + s0[at + TotalWidth(layout)..]
  {
    hide Fits, PutField;
    var on := at + Width(layout.kind);
    assert s1[..on] == s0[..at] + PutField(layout.kind, vs.value);
    assert s1[on + TotalWidth(layout.rest)..] == s0[at + TotalWidth(layout)..];
  }

  // ---------------------------------------------------------------------------------------------
  // Messages
  // ---------------------------------------------------------------------------------------------

  datatype Msg =
    | Login(participant: int, token: seq<byte>, clientSeq: int)
    | EnterOrder(clientSeq: int, orderId: int, instrument: int, side: int, orderType: int, price: int, quantity: int, tif: int)
    | CancelOrder(clientSeq: int, orderId: int, instrument: int)
    | CancelReplace(clientSeq: int, orderId: int, instrument: int, newPrice: int, newQuantity: int)
    | Heartbeat(marker: int)
    | LoginAck(serverSeq: int, status: int)
    | LoginReject(why: int, reserved: int)
    | ExecReport(orderId: int, execType: int, execQty: int, leavesQty: int, tradePrice: int, tradeId: int, globalSeq: int)
    | Reject(orderId: int, why: int, globalSeq: int)

  datatype Reason =
    | MalformedFrame | UnknownMessageType | InvalidField | UnknownInstrument | InvalidTifCombination

  // The instruments and prices a decoder accepts.
  datatype Rules = Rules(instruments: set<int>, minPrice: int, maxPrice: int)

  const LENGTH_SIZE := 4
  const MAX_FRAME := 64

  function TypeOf(m: Msg): (t: byte)
    ensures 1 <= t <= 9
  {
    match m
    case Login(_, _, _) => 1
    case EnterOrder(_, _, _, _, _, _, _, _) => 2
    case CancelOrder(_, _, _) => 3
    case CancelReplace(_, _, _, _, _) => 4
    case Heartbeat(_) => 5
    case LoginAck(_, _) => 6
    case LoginReject(_, _) => 7
    case ExecReport(_, _, _, _, _, _, _) => 8
    case Reject(_, _, _) => 9
  }

  // The sizes the protocol fixes for types 1 to 15; 10 to 15 belong to the market-data feed.
  function PayloadSize(t: int): nat {
    if t == 1 then 48 else if t == 2 then 39 else if t == 3 then 20 else if t == 4 then 36 else if t == 5 then 8
    else if t == 6 then 9 else if t == 7 then 2 else if t == 8 then 49 else if t == 9 then 17
    else if t == 10 then 34 else if t == 11 then 54 else if t == 12 then 52 else if t == 13 then 53
    else if t == 14 then 20 else if t == 15 then 16 else 0
  }

  function LayoutOf(t: int): Layout {
    if t == 1 then Then(I64, Then(Token, Then(U64, End)))
    else if t == 2 then Then(U64, Then(I64, Then(U32, Then(U8, Then(U8, Then(I64, Then(I64, Then(U8, End))))))))
    else if t == 3 then Then(U64, Then(I64, Then(U32, End)))
    else if t == 4 then Then(U64, Then(I64, Then(U32, Then(I64, Then(I64, End)))))
    else if t == 5 then Then(U64, End)
    else if t == 6 then Then(I64, Then(U8, End))
    else if t == 7 then Then(U8, Then(U8, End))
    else if t == 8 then Then(I64, Then(U8, Then(I64, Then(I64, Then(I64, Then(I64, Then(I64, End)))))))
    else Then(I64, Then(U8, Then(I64, End)))
  }

  lemma SizesAgree(t: int)
    requires 1 <= t <= 9
    ensures TotalWidth(LayoutOf(t)) == PayloadSize(t) <= MAX_FRAME - 1
  {
    assert TotalWidth(Then(I64, Then(I64, Then(U8, End)))) == 17;
    assert TotalWidth(Then(U32, Then(U8, Then(U8, Then(I64, Then(I64, Then(U8, End))))))) == 23;
    assert TotalWidth(Then(I64, Then(I64, Then(I64, Then(I64, Then(I64, End)))))) == 40;
  }

  function ValuesOf(m: Msg): Values {
    match m
    case Login(a, b, c) => And(Num(a), And(Raw(b), And(Num(c), Done)))
    case EnterOrder(a, b, c, d, e, f, g, h) =>
      And(Num(a), And(Num(b), And(Num(c), And(Num(d), And(Num(e), And(Num(f), And(Num(g), And(Num(h), Done))))))))
    case CancelOrder(a, b, c) => And(Num(a), And(Num(b), And(Num(c), Done)))
    case CancelReplace(a, b, c, d, e) => And(Num(a), And(Num(b), And(Num(c), And(Num(d), And(Num(e), Done)))))
    case Heartbeat(a) => And(Num(a), Done)
    case LoginAck(a, b) => And(Num(a), And(Num(b), Done))
    case LoginReject(a, b) => And(Num(a), And(Num(b), Done))
    case ExecReport(a, b, c, d, e, f, g) =>
      And(Num(a), And(Num(b), And(Num(c), And(Num(d), And(Num(e), And(Num(f), And(Num(g), Done)))))))
    case Reject(a, b, c) => And(Num(a), And(Num(b), And(Num(c), Done)))
  }

  function Rest(vs: Values): Values {
    if vs.And? then vs.rest else Done
  }

  function First(vs: Values): int {
    if vs.And? && vs.value.Num? then vs.value.n else 0
  }

  function MsgOf(t: int, vs: Values): Msg {
    var v1 := Rest(vs);
    var v2 := Rest(v1);
    var v3 := Rest(v2);
    var v4 := Rest(v3);
    var v5 := Rest(v4);
    var v6 := Rest(v5);
    var v7 := Rest(v6);
    if t == 1 then Login(First(vs), if v1.And? && v1.value.Raw? then v1.value.bytes else [], First(v2))
    else if t == 2 then EnterOrder(First(vs), First(v1), First(v2), First(v3), First(v4), First(v5), First(v6), First(v7))
    else if t == 3 then CancelOrder(First(vs), First(v1), First(v2))
    else if t == 4 then CancelReplace(First(vs), First(v1), First(v2), First(v3), First(v4))
    else if t == 5 then Heartbeat(First(vs))
    else if t == 6 then LoginAck(First(vs), First(v1))
    else if t == 7 then LoginReject(First(vs), First(v1))
    else if t == 8 then ExecReport(First(vs), First(v1), First(v2), First(v3), First(v4), First(v5), First(v6))
    else Reject(First(vs), First(v1), First(v2))
  }

  lemma MsgOfValues(m: Msg)
    ensures MsgOf(TypeOf(m), ValuesOf(m)) == m
  {
  }

  lemma Peel(l: Layout, vs: Values)
    requires AllFit(l, vs)
    ensures if l.Then? then vs.And? && Fits(l.kind, vs.value) && AllFit(l.rest, vs.rest) else vs.Done?
  {
  }

  lemma ShortMsg(t: int, vs: Values)
    requires 1 <= t <= 9 && t != 2 && t != 4 && t != 8 && AllFit(LayoutOf(t), vs)
    ensures TypeOf(MsgOf(t, vs)) == t && ValuesOf(MsgOf(t, vs)) == vs
  {
    var l := LayoutOf(t);
    Peel(l, vs);
    Peel(l.rest, vs.rest);
    if l.rest.Then? {
      Peel(l.rest.rest, vs.rest.rest);
    }
  }

  lemma LongMsg(t: int, vs: Values)
    requires (t == 2 || t == 4 || t == 8) && AllFit(LayoutOf(t), vs)
    ensures TypeOf(MsgOf(t, vs)) == t && ValuesOf(MsgOf(t, vs)) == vs
  {
    var l0 := LayoutOf(t);
    hide AllFit;
    Peel(l0, vs);
    var l1, v1 := l0.rest, vs.rest;
    Peel(l1, v1);
    var l2, v2 := l1.rest, v1.rest;
    Peel(l2, v2);
    var l3, v3 := l2.rest, v2.rest;
    Peel(l3, v3);
    var l4, v4 := l3.rest, v3.rest;
    Peel(l4, v4);
    var l5, v5 := l4.rest, v4.rest;
    Peel(l5, v5);
    if l5.Then? {
      Peel(l5.rest, v5.rest);
      Peel(l5.rest.rest, v5.rest.rest);
      if l5.rest.rest.Then? {
        Peel(l5.rest.rest.rest, v5.rest.rest.rest);
      }
    }
  }

  lemma ValuesOfMsg(t: int, vs: Values)
    requires 1 <= t <= 9 && AllFit(LayoutOf(t), vs)
    ensures TypeOf(MsgOf(t, vs)) == t && ValuesOf(MsgOf(t, vs)) == vs
  {
    hide AllFit, MsgOf, ValuesOf, LayoutOf;
    if t == 2 || t == 4 || t == 8 {
      LongMsg(t, vs);
    } else {
      ShortMsg(t, vs);
    }
  }

  // ---------------------------------------------------------------------------------------------
  // Frames
  // ---------------------------------------------------------------------------------------------

  // Every field fits its width.
  predicate Encodable(m: Msg) {
    AllFit(LayoutOf(TypeOf(m)), ValuesOf(m))
  }

  function PriceOk(r: Rules, price: int): bool {
    r.minPrice <= price <= r.maxPrice
  }

  // The field checks, in the decoder's order.
  function FieldCheck(r: Rules, m: Msg): Option<Reason> {
    match m
    case EnterOrder(_, _, instrument, side, orderType, price, quantity, tif) =>
      if !(side == 0 || side == 1) || !(orderType == 0 || orderType == 1) || !(0 <= tif <= 2) then Some(InvalidField)
      else if instrument !in r.instruments then Some(UnknownInstrument)
      else if quantity <= 0 then Some(InvalidField)
      else if orderType == 1 && tif == 2 then Some(InvalidTifCombination)
      else if orderType == 0 && !PriceOk(r, price) then Some(InvalidField)
      else if orderType == 1 && price != 0 && !PriceOk(r, price) then Some(InvalidField)
      else None
    case CancelOrder(_, _, instrument) => if instrument !in r.instruments then Some(UnknownInstrument) else None
    case CancelReplace(_, _, instrument, price, quantity) =>
      if instrument !in r.instruments then Some(UnknownInstrument)
      else if quantity <= 0 || !PriceOk(r, price) then Some(InvalidField)
      else None
    case _ => None
  }

  // A message this decoder accepts.
  predicate ValidMsg(r: Rules, m: Msg) {
    Encodable(m) && FieldCheck(r, m).None?
  }

  function Encode(m: Msg): (s: seq<byte>)
    requires Encodable(m)
    ensures |s| == LENGTH_SIZE + 1 + PayloadSize(TypeOf(m))
  {
    SizesAgree(TypeOf(m));
    PutLe(1 + PayloadSize(TypeOf(m)), LENGTH_SIZE) + [TypeOf(m)] + PutAll(LayoutOf(TypeOf(m)), ValuesOf(m))
  }

  /** The encoder writes the frame into a buffer, header first, and touches nothing around it. */
  method EncodeInto(dst: array<byte>, at: nat, m: Msg) returns (n: nat)
    requires Encodable(m) && at + LENGTH_SIZE + 1 + PayloadSize(TypeOf(m)) <= dst.Length
    modifies dst
    ensures n == |Encode(m)| && dst[..] == old(dst[..at]) + Encode(m) + old(dst[at + n..])
  {
    hide AllFit, PutAll, LayoutOf, ValuesOf, PutLe;
    var t := TypeOf(m);
    SizesAgree(t);
    var head := at + LENGTH_SIZE;
    ghost var s0 := dst[..];
    Put(dst, at, 1 + PayloadSize(t), LENGTH_SIZE);
    ghost var s1 := dst[..];
    dst[head] := t;
    ghost var s2 := dst[..];
    WriteAll(dst, head + 1, LayoutOf(t), ValuesOf(m));
    n := LENGTH_SIZE + 1 + PayloadSize(t);
    FrameJoins(s0, s1, s2, dst[..], at, PutLe(1 + PayloadSize(t), LENGTH_SIZE), t, PutAll(LayoutOf(t), ValuesOf(m)));
  }

  lemma FrameJoins(s0: seq<byte>, s1: seq<byte>, s2: seq<byte>, s3: seq<byte>, at: nat, length: seq<byte>, t: byte, payload: seq<byte>)
    requires at + |length| + 1 + |payload| <= |s0|
    requires s1 == s0[..at] + length + s0[at + |length|..] && s2 == s1[at + |length| := t]
    requires s3 == s2[..at + |length| + 1] + payload + s2[at + |length| + 1 + |payload|..]
    ensures s3 == s0[..at] + (length + [t] + payload) + s0[at + |length| + 1 + |payload|..]
  {
    var head := at + |length|;
    assert s2[..head + 1] == s0[..at] + (length + [t]);
    assert s2[head + 1 + |payload|..] == s0[head + 1 + |payload|..];
  }

  datatype Outcome =
    | Incomplete
    | Invalid(reason: Reason)
    | Frame(msg: Msg, size: nat)

  // What the front of the buffer holds.
  function NextFrame(r: Rules, buf: seq<byte>): (o: Outcome)
    ensures o.Frame? ==> LENGTH_SIZE < o.size <= |buf|
  {
    if |buf| < LENGTH_SIZE then Incomplete
    else
      var length := GetLe(buf[..LENGTH_SIZE]);
      if length < 1 || length > MAX_FRAME then Invalid(MalformedFrame)
      else if |buf| < LENGTH_SIZE + length then Incomplete
      else
        var t := buf[LENGTH_SIZE];
        if !(1 <= t <= 15) then Invalid(UnknownMessageType)
        else if length != 1 + PayloadSize(t) then Invalid(MalformedFrame)
        else if t > 9 then Invalid(UnknownMessageType)
        else
          SizesAgree(t);
          var m := MsgOf(t, GetAll(LayoutOf(t), buf[LENGTH_SIZE + 1..LENGTH_SIZE + length]));
          match FieldCheck(r, m)
          case Some(reason) => Invalid(reason)
          case None => Frame(m, LENGTH_SIZE + length)
  }

  // The decoder sees the encoded message, whatever follows it, and judges it by its fields.
  lemma DecodesTo(r: Rules, m: Msg, more: seq<byte>)
    requires Encodable(m)
    ensures NextFrame(r, Encode(m) + more) == match FieldCheck(r, m)
      case Some(reason) => Invalid(reason)
      case None => Frame(m, |Encode(m)|)
  {
    hide FieldCheck, GetAll, PutAll, LayoutOf, ValuesOf, MsgOf, GetLe, PutLe, AllFit;
    var t := TypeOf(m);
    var n := PayloadSize(t);
    var buf := Encode(m) + more;
    SizesAgree(t);
    GetPutLength(1 + n);
    assert buf[..LENGTH_SIZE] == PutLe(1 + n, LENGTH_SIZE);
    assert buf[LENGTH_SIZE] == t;
    assert buf[LENGTH_SIZE + 1..LENGTH_SIZE + 1 + n] == PutAll(LayoutOf(t), ValuesOf(m));
    LayoutRoundTrip(LayoutOf(t), ValuesOf(m));
    MsgOfValues(m);
  }

  /** Encoding then decoding gives the message back, whatever follows it in the buffer. */
  lemma DecodeEncoded(r: Rules, m: Msg, more: seq<byte>)
    requires ValidMsg(r, m)
    ensures NextFrame(r, Encode(m) + more) == Frame(m, |Encode(m)|)
  {
    hide FieldCheck, NextFrame, Encode, Encodable;
    DecodesTo(r, m, more);
  }

  lemma GetPutLength(n: nat)
    requires n <= MAX_FRAME
    ensures GetLe(PutLe(n, LENGTH_SIZE)) == n
  {
    assert Pow256(LENGTH_SIZE) > 256 by {
      assert Pow256(1) == 256 && Pow256(2) == 256 * 256;
    }
    GetPut(n, LENGTH_SIZE);
  }

  /** Decoding then encoding gives the frame back: every accepted frame is the encoding of a valid message. */
  lemma EncodeDecoded(r: Rules, buf: seq<byte>)
    requires NextFrame(r, buf).Frame?
    ensures var o := NextFrame(r, buf); ValidMsg(r, o.msg) && Encode(o.msg) == buf[..o.size]
  {
    hide FieldCheck, GetAll, PutAll, LayoutOf, ValuesOf, MsgOf, GetLe, PutLe, AllFit;
    var length, t := GetLe(buf[..LENGTH_SIZE]), buf[LENGTH_SIZE];
    var payload := buf[LENGTH_SIZE + 1..LENGTH_SIZE + length];
    SizesAgree(t);
    LayoutInverse(LayoutOf(t), payload);
    ValuesOfMsg(t, GetAll(LayoutOf(t), payload));
    PutGet(buf[..LENGTH_SIZE]);
    assert buf[..LENGTH_SIZE + length] == buf[..LENGTH_SIZE] + [t] + payload;
  }

  // ---------------------------------------------------------------------------------------------
  // Streams
  // ---------------------------------------------------------------------------------------------

  // A verdict reached on a buffer does not change when more bytes follow.
  lemma NextStable(r: Rules, buf: seq<byte>, more: seq<byte>)
    requires !NextFrame(r, buf).Incomplete?
    ensures NextFrame(r, buf + more) == NextFrame(r, buf)
  {
    hide FieldCheck, GetAll, LayoutOf, MsgOf, GetLe;
    assert (buf + more)[..LENGTH_SIZE] == buf[..LENGTH_SIZE];
    var length := GetLe(buf[..LENGTH_SIZE]);
    if 1 <= length <= MAX_FRAME {
      assert (buf + more)[LENGTH_SIZE + 1..LENGTH_SIZE + length] == buf[LENGTH_SIZE + 1..LENGTH_SIZE + length];
    }
  }

  // The messages of a stream up to the first bad frame, and what is left when no frame is complete.
  datatype Parsed = Parsed(msgs: seq<Msg>, bad: Option<Reason>, left: seq<byte>)

  function Parse(r: Rules, stream: seq<byte>): Parsed
    decreases |stream|
  {
    match NextFrame(r, stream)
    case Incomplete => Parsed([], None, stream)
    case Invalid(reason) => Parsed([], Some(reason), stream)
    case Frame(m, size) =>
      var p := Parse(r, stream[size..]);
      p.(msgs := [m] + p.msgs)
  }

  /** Parsing what arrived, then what was left of it with the next bytes, is parsing everything at once. */
  lemma {:induction false} ParseSplit(r: Rules, a: seq<byte>, b: seq<byte>)
    ensures var p := Parse(r, a);
      if p.bad.Some? then Parse(r, a + b).msgs == p.msgs && Parse(r, a + b).bad == p.bad
      else
        var q := Parse(r, p.left + b);
        Parse(r, a + b) == q.(msgs := p.msgs + q.msgs)
    decreases |a|
  {
    hide NextFrame;
    match NextFrame(r, a)
    case Incomplete =>
      assert [] + Parse(r, a + b).msgs == Parse(r, a + b).msgs;
    case Invalid(_) =>
      NextStable(r, a, b);
    case Frame(m, size) =>
      NextStable(r, a, b);
      NextWithin(r, a);
      assert (a + b)[size..] == a[size..] + b;
      ParseSplit(r, a[size..], b);
      var p := Parse(r, a[size..]);
      if p.bad.None? {
        var q := Parse(r, p.left + b);
        assert [m] + (p.msgs + q.msgs) == [m] + p.msgs + q.msgs;
      }
  }

  lemma NextWithin(r: Rules, buf: seq<byte>)
    requires NextFrame(r, buf).Frame?
    ensures LENGTH_SIZE < NextFrame(r, buf).size <= |buf|
  {
  }

  /** What a drained buffer still holds is less than one frame. */
  lemma {:induction false} LeftBound(r: Rules, stream: seq<byte>)
    requires Parse(r, stream).bad.None?
    ensures |Parse(r, stream).left| <= 67
    decreases |stream|
  {
    match NextFrame(r, stream)
    case Incomplete =>
    case Invalid(_) =>
    case Frame(_, size) => LeftBound(r, stream[size..]);
  }

  // ---------------------------------------------------------------------------------------------
  // The decoder
  // ---------------------------------------------------------------------------------------------

  const BUFFER_SIZE := 256

  class FrameDecoder {
    const rules: Rules
    const buf: array<byte>
    var len: nat
    var terminal: bool

    ghost predicate Valid()
      reads this
    {
      buf.Length == BUFFER_SIZE && len <= BUFFER_SIZE
    }

    // The bytes received and not yet decoded.
    ghost function Held(): seq<byte>
      requires Valid()
      reads this, buf
    {
      buf[..len]
    }

    constructor (rules: Rules)
      ensures Valid() && Held() == [] && !terminal && this.rules == rules && fresh(buf)
    {
      this.rules := rules;
      buf := new byte[BUFFER_SIZE];
      len, terminal := 0, false;
    }

    method Feed(data: seq<byte>) returns (ok: bool)
      requires Valid()
      modifies this, buf
      ensures Valid() && terminal == old(terminal)
      ensures ok <==> !old(terminal) && |old(Held())| + |data| <= BUFFER_SIZE
      ensures Held() == if ok then old(Held()) + data else old(Held())
    {
      if terminal || len + |data| > BUFFER_SIZE {
        return false;
      }
      var i := 0;
      while i < |data|
        modifies buf
        invariant 0 <= i <= |data| && buf[..len + i] == old(buf[..len]) + data[..i]
      {
        buf[len + i] := data[i];
        assert buf[..len + i + 1] == buf[..len + i] + [data[i]];
        i := i + 1;
      }
      len := len + |data|;
      ok := true;
    }

    // Move what follows the first `n` bytes to the front.
    method Consume(n: nat)
      requires Valid() && n <= len
      modifies this, buf
      ensures Valid() && Held() == old(Held())[n..] && terminal == old(terminal)
    {
      var i := 0;
      while i < len - n
        modifies buf
        invariant 0 <= i <= len - n
        invariant buf[..i] == old(buf[n..n + i])
        invariant buf[n + i..] == old(buf[n + i..])
      {
        assert buf[n + i] == old(buf[n + i..])[0];
        buf[i] := buf[n + i];
        assert buf[..i + 1] == buf[..i] + [buf[i]];
        i := i + 1;
      }
      len := len - n;
    }

    /** One frame off the front, or why there is none. The first bad frame ends the stream. */
    method Next() returns (o: Outcome)
      requires Valid()
      modifies this, buf
      ensures Valid()
      ensures old(terminal) ==> o == Invalid(MalformedFrame) && terminal && Held() == old(Held())
      ensures !old(terminal) ==> o == NextFrame(rules, old(Held())) && terminal == o.Invalid?
      ensures !old(terminal) ==> Held() == if o.Frame? then old(Held())[o.size..] else old(Held())
    {
      hide FieldCheck, GetAll, LayoutOf, MsgOf, GetLe;
      if terminal {
        return Invalid(MalformedFrame);
      }
      if len < LENGTH_SIZE {
        return Incomplete;
      }
      var length := Get(buf, 0, LENGTH_SIZE);
      assert buf[0..LENGTH_SIZE] == buf[..len][..LENGTH_SIZE];
      if length < 1 || length > MAX_FRAME {
        terminal := true;
        return Invalid(MalformedFrame);
      }
      if len < LENGTH_SIZE + length {
        return Incomplete;
      }
      var t := buf[LENGTH_SIZE];
      if !(1 <= t <= 15) {
        terminal := true;
        return Invalid(UnknownMessageType);
      }
      if length != 1 + PayloadSize(t) {
        terminal := true;
        return Invalid(MalformedFrame);
      }
      if t > 9 {
        terminal := true;
        return Invalid(UnknownMessageType);
      }
      SizesAgree(t);
      var payload := buf[LENGTH_SIZE + 1..LENGTH_SIZE + length];
      assert payload == buf[..len][LENGTH_SIZE + 1..LENGTH_SIZE + length];
      var m := MsgOf(t, GetAll(LayoutOf(t), payload));
      var bad := FieldCheck(rules, m);
      if bad.Some? {
        terminal := true;
        return Invalid(bad.value);
      }
      o := Frame(m, LENGTH_SIZE + length);
      Consume(LENGTH_SIZE + length);
    }

    // The caller's loop: decode until a frame is incomplete or bad.
    method Drain() returns (msgs: seq<Msg>, bad: Option<Reason>)
      requires Valid() && !terminal
      modifies this, buf
      ensures Valid() && terminal == bad.Some?
      ensures var p := Parse(rules, old(Held())); msgs == p.msgs && bad == p.bad && (bad.None? ==> Held() == p.left)
    {
      hide NextFrame;
      msgs := [];
      while true
        invariant Valid() && !terminal
        invariant var p, q := Parse(rules, old(Held())), Parse(rules, Held());
          p == q.(msgs := msgs + q.msgs)
        decreases |Held()|
      {
        ghost var was := Held();
        var o := Next();
        match o {
          case Incomplete => return msgs, None;
          case Invalid(reason) => return msgs, Some(reason);
          case Frame(m, size) =>
            NextWithin(rules, was);
            ghost var q := Parse(rules, was[size..]);
            assert msgs + ([m] + q.msgs) == msgs + [m] + q.msgs;
            msgs := msgs + [m];
        }
      }
    }

    /** However the stream is cut into reads of at most 189 bytes, no read overflows the buffer, and the messages and
        the first bad frame are those of a single parse of the whole stream. */
    method Receive(chunks: seq<seq<byte>>) returns (msgs: seq<Msg>, bad: Option<Reason>)
      requires Valid() && !terminal && Held() == []
      requires forall i :: 0 <= i < |chunks| ==> |chunks[i]| <= 189
      modifies this, buf
      ensures Valid()
      ensures var p := Parse(rules, Concat(chunks)); msgs == p.msgs && bad == p.bad
    {
      hide NextFrame, Parse;
      msgs, bad := [], None;
      var i := 0;
      ParseNothing(rules);
      while i < |chunks|
        invariant 0 <= i <= |chunks| && Valid() && !terminal && bad.None?
        invariant var p := Parse(rules, Concat(chunks[..i])); p == Parsed(msgs, None, Held())
      {
        assert chunks[..i + 1][..i] == chunks[..i];
        ghost var before := Concat(chunks[..i]);
        LeftBound(rules, before);
        var ok := Feed(chunks[i]);
        ParseSplit(rules, before, chunks[i]);
        var more;
        more, bad := Drain();
        msgs := msgs + more;
        if bad.Some? {
          ConcatSplit(chunks, i + 1);
          ParseSplit(rules, Concat(chunks[..i + 1]), Concat(chunks[i + 1..]));
          return;
        }
        i := i + 1;
      }
      assert chunks[..i] == chunks;
    }
  }

  function Concat(chunks: seq<seq<byte>>): seq<byte> {
    if chunks == [] then [] else Concat(chunks[..|chunks| - 1]) + chunks[|chunks| - 1]
  }

  lemma {:induction false} ConcatSplit(chunks: seq<seq<byte>>, k: nat)
    requires k <= |chunks|
    ensures Concat(chunks) == Concat(chunks[..k]) + Concat(chunks[k..])
    decreases |chunks| - k
  {
    if k == |chunks| {
      assert chunks[..k] == chunks && chunks[k..] == [];
    } else {
      var most, last := chunks[..|chunks| - 1], chunks[|chunks| - 1];
      ConcatSplit(most, k);
      assert most[..k] == chunks[..k] && most[k..] == chunks[k..][..|chunks[k..]| - 1];
    }
  }

  lemma ParseNothing(r: Rules)
    ensures Parse(r, []) == Parsed([], None, [])
  {
  }
}
