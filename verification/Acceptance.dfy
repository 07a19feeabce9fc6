/** Which frames the order-entry decoder accepts, why it rejects the others, and where each field lies in a frame. */
module Acceptance {
  import opened Types
  import opened Bytes
  import opened Framing

  // ---------------------------------------------------------------------------------------------
  // Acceptance
  // ---------------------------------------------------------------------------------------------

  // Side 0 or 1, type 0 (limit) or 1 (market), time in force 0, 1 or 2.
  predicate KnownCodes(side: int, orderType: int, tif: int) {
    (side == 0 || side == 1) && (orderType == 0 || orderType == 1) && (tif == 0 || tif == 1 || tif == 2)
  }

  predicate Within(r: Rules, price: int) {
    r.minPrice <= price && price <= r.maxPrice
  }

  // The condition on a message's own fields.
  predicate Acceptable(r: Rules, m: Msg) {
    && (m.EnterOrder? ==>
          && KnownCodes(m.side, m.orderType, m.tif) && m.instrument in r.instruments && m.quantity > 0
          && !(m.orderType == 1 && m.tif == 2)
          && (Within(r, m.price) || (m.orderType == 1 && m.price == 0)))
    && (m.CancelOrder? ==> m.instrument in r.instruments)
    && (m.CancelReplace? ==> m.instrument in r.instruments && m.newQuantity > 0 && Within(r, m.newPrice))
  }

  // The codes come first, then the instrument, then the quantity, then the combination, then the price.
  predicate UnknownHere(r: Rules, m: Msg) {
    || (m.EnterOrder? && KnownCodes(m.side, m.orderType, m.tif) && m.instrument !in r.instruments)
    || (m.CancelOrder? && m.instrument !in r.instruments)
    || (m.CancelReplace? && m.instrument !in r.instruments)
  }

  predicate MarketOrKill(r: Rules, m: Msg) {
    && m.EnterOrder? && KnownCodes(m.side, m.orderType, m.tif) && m.instrument in r.instruments && m.quantity > 0
    && m.orderType == 1 && m.tif == 2
  }

  lemma ChecksAre(r: Rules, m: Msg)
    ensures FieldCheck(r, m) ==
      if Acceptable(r, m) then None
      else if UnknownHere(r, m) then Some(UnknownInstrument)
      else if MarketOrKill(r, m) then Some(InvalidTifCombination)
      else Some(InvalidField)
  {
  }

  /** A frame is accepted if and only if its message meets the condition on its own fields, and then as that message;
      otherwise the reason is the first check that fails. */
  lemma AcceptsIff(r: Rules, m: Msg, more: seq<byte>)
    requires Encodable(m)
    ensures var o := NextFrame(r, Encode(m) + more);
      && (o.Frame? <==> Acceptable(r, m))
      && (o.Frame? ==> o.msg == m && o.size == |Encode(m)|)
      && (o == Invalid(UnknownInstrument) <==> UnknownHere(r, m))
      && (o == Invalid(InvalidTifCombination) <==> MarketOrKill(r, m))
      && (o == Invalid(InvalidField) <==> !Acceptable(r, m) && !UnknownHere(r, m) && !MarketOrKill(r, m))
  {
    hide FieldCheck, NextFrame, Encode, Encodable;
    ChecksAre(r, m);
    DecodesTo(r, m, more);
  }

  // Every message of another kind is accepted as it is.
  lemma OthersAccepted(r: Rules, m: Msg, more: seq<byte>)
    requires Encodable(m) && !m.EnterOrder? && !m.CancelOrder? && !m.CancelReplace?
    ensures NextFrame(r, Encode(m) + more) == Frame(m, |Encode(m)|)
  {
    hide NextFrame, Encode, Encodable;
    AcceptsIff(r, m, more);
  }

  // The first four bytes as a number.
  function Length(buf: seq<byte>): int
    requires |buf| >= 4
  {
    var b0: int, b1: int, b2: int, b3: int := buf[0], buf[1], buf[2], buf[3];
    b0 + 256 * b1 + 65536 * b2 + 16777216 * b3
  }

  lemma LengthIs(buf: seq<byte>)
    requires |buf| >= 4
    ensures GetLe(buf[..LENGTH_SIZE]) == Length(buf)
  {
    var s := buf[..4];
    var s1, s2, s3 := s[1..], s[2..], s[3..];
    assert s1[1..] == s2 && s2[1..] == s3 && s3[1..] == [];
    var b0: int, b1: int, b2: int, b3: int := buf[0], buf[1], buf[2], buf[3];
    assert GetLe(s3) == b3;
    assert GetLe(s2) == b2 + 256 * b3;
    assert GetLe(s1) == b1 + 256 * (b2 + 256 * b3);
  }

  /** Whatever arrives: a frame is waited for exactly while its length is good and bytes are missing; it is malformed
      exactly if the length is no frame's or not its type's; its type is unknown exactly if it is none of the protocol's,
      or one of the market-data feed's. */
  lemma FrameVerdicts(r: Rules, buf: seq<byte>)
    ensures NextFrame(r, buf) == Incomplete <==> |buf| < 4 || (1 <= Length(buf) <= 64 && |buf| < 4 + Length(buf))
    ensures NextFrame(r, buf) == Invalid(MalformedFrame) <==>
      && |buf| >= 4
      && (!(1 <= Length(buf) <= 64) || (|buf| >= 4 + Length(buf) && 1 <= buf[4] <= 15 && Length(buf) != 1 + PayloadSize(buf[4])))
    ensures NextFrame(r, buf) == Invalid(UnknownMessageType) <==>
      && |buf| >= 4 && 1 <= Length(buf) <= 64 && |buf| >= 4 + Length(buf)
      && (!(1 <= buf[4] <= 15) || (10 <= buf[4] <= 15 && Length(buf) == 1 + PayloadSize(buf[4])))
  {
    hide FieldCheck, GetAll, LayoutOf, MsgOf, GetLe;
    if |buf| >= 4 {
      LengthIs(buf);
      var length, t := Length(buf), if |buf| >= 5 then buf[4] else 0;
      if 1 <= length <= 64 && |buf| >= 4 + length && 1 <= t <= 9 && length == 1 + PayloadSize(t) {
        SizesAgree(t);
        ChecksAre(r, MsgOf(t, GetAll(LayoutOf(t), buf[LENGTH_SIZE + 1..LENGTH_SIZE + length])));
      }
    }
  }

  // ---------------------------------------------------------------------------------------------
  // The bytes of a frame
  // ---------------------------------------------------------------------------------------------

  // The n low bytes of a value, least significant first; negative values as two's complement.
  lemma {:induction false} ByteAt(v: nat, n: nat, i: nat)
    requires i < n
    ensures PutLe(v, n)[i] == v / Pow256(i) % 256
  {
    if i > 0 {
      ByteAt(v / 256, n - 1, i - 1);
      DivTwice(v, Pow256(i - 1));
    }
  }

  lemma DivTwice(v: nat, p: nat)
    requires p > 0
    ensures v / 256 / p == v / (256 * p)
  {
    var q, s := v / 256 / p, v / 256 % p;
    assert v / 256 == q * p + s;
    assert v == 256 * (q * p + s) + v % 256;
    assert v == q * (256 * p) + (256 * s + v % 256);
    assert 0 <= 256 * s + v % 256 < 256 * p;
    Quotient(v, 256 * p, q, 256 * s + v % 256);
  }

  lemma Quotient(v: int, d: int, q: int, s: int)
    requires d > 0 && v == q * d + s && 0 <= s < d
    ensures v / d == q
  {
    var e := v / d - q;
    assert v == (v / d) * d + v % d;
    assert e * d == s - v % d;
    assert e >= 1 ==> e * d >= d;
    assert e <= -1 ==> e * d <= -d;
  }

  // The low n bytes of a value, as two's complement if it is negative.
  function Low(v: int, n: nat): (s: seq<byte>)
    ensures |s| == n
  {
    PutLe(v % Pow256(n), n)
  }

  lemma LowIs(v: int, n: nat)
    ensures FitsUnsigned(v, n) ==> PutLe(v, n) == Low(v, n)
    ensures FitsSigned(v, n) ==> ToUnsigned(v, n) >= 0 && PutLe(ToUnsigned(v, n), n) == Low(v, n)
  {
    hide PutLe;
    var p := Pow256(n);
    if 0 <= v < p {
      Remainder(v, p, 0, v);
    }
    if FitsSigned(v, n) {
      Remainder(v, p, if v < 0 then -1 else 0, ToUnsigned(v, n));
    }
  }

  lemma Remainder(v: int, d: int, q: int, s: int)
    requires d > 0 && v == q * d + s && 0 <= s < d
    ensures v % d == s
  {
    Quotient(v, d, q, s);
    assert v == (v / d) * d + v % d;
  }

  function FieldBytes(k: Kind, v: Value): seq<byte> {
    if v.Raw? then v.bytes else Low(v.n, Width(k))
  }

  // The first field and the fields behind it.
  lemma Field(layout: Layout, vs: Values)
    requires AllFit(layout, vs)
    ensures layout.End? ==> PutAll(layout, vs) == []
    ensures layout.Then? ==>
      && vs.And? && AllFit(layout.rest, vs.rest)
      && PutAll(layout, vs) == FieldBytes(layout.kind, vs.value) + PutAll(layout.rest, vs.rest)
  {
    hide PutLe, Low;
    if layout.Then? && vs.value.Num? {
      LowIs(vs.value.n, Width(layout.kind));
    }
  }

  function Code(m: Msg): byte {
    if m.Login? then 1 else if m.EnterOrder? then 2 else if m.CancelOrder? then 3 else if m.CancelReplace? then 4
    else if m.Heartbeat? then 5 else if m.LoginAck? then 6 else if m.LoginReject? then 7 else if m.ExecReport? then 8 else 9
  }

  // The fields of each message in their order, with their widths.
  function Payload(m: Msg): seq<byte> {
    match m
    case Login(participant, token, clientSeq) => Low(participant, 8) + (token + Low(clientSeq, 8))
    case EnterOrder(clientSeq, orderId, instrument, side, orderType, price, quantity, tif) =>
      Low(clientSeq, 8) + (Low(orderId, 8) + (Low(instrument, 4) + (Low(side, 1) + (Low(orderType, 1)
        + (Low(price, 8) + (Low(quantity, 8) + Low(tif, 1)))))))
    case CancelOrder(clientSeq, orderId, instrument) => Low(clientSeq, 8) + (Low(orderId, 8) + Low(instrument, 4))
    case CancelReplace(clientSeq, orderId, instrument, price, quantity) =>
      Low(clientSeq, 8) + (Low(orderId, 8) + (Low(instrument, 4) + (Low(price, 8) + Low(quantity, 8))))
    case Heartbeat(marker) => Low(marker, 8)
    case LoginAck(serverSeq, status) => Low(serverSeq, 8) + Low(status, 1)
    case LoginReject(why, reserved) => Low(why, 1) + Low(reserved, 1)
    case ExecReport(orderId, execType, execQty, leavesQty, tradePrice, tradeId, globalSeq) =>
      Low(orderId, 8) + (Low(execType, 1) + (Low(execQty, 8) + (Low(leavesQty, 8) + (Low(tradePrice, 8)
        + (Low(tradeId, 8) + Low(globalSeq, 8))))))
    case Reject(orderId, why, globalSeq) => Low(orderId, 8) + (Low(why, 1) + Low(globalSeq, 8))
  }

  lemma LastField(s: seq<byte>)
    ensures s + [] == s
  {
  }

  // Two fields and what is behind them.
  lemma Fields2(layout: Layout, vs: Values)
    requires AllFit(layout, vs) && layout.Then? && layout.rest.Then?
    ensures vs.And? && vs.rest.And? && AllFit(layout.rest.rest, vs.rest.rest)
    ensures PutAll(layout, vs) == FieldBytes(layout.kind, vs.value)
         + (FieldBytes(layout.rest.kind, vs.rest.value) + PutAll(layout.rest.rest, vs.rest.rest))
  {
    hide AllFit, PutAll, FieldBytes;
    Field(layout, vs);
    Field(layout.rest, vs.rest);
  }

  lemma ShortPayload(m: Msg)
    requires Encodable(m) && !m.EnterOrder? && !m.ExecReport? && !m.CancelReplace?
    ensures PutAll(LayoutOf(TypeOf(m)), ValuesOf(m)) == Payload(m)
  {
    hide AllFit, PutAll, Low;
    var l, v := LayoutOf(TypeOf(m)), ValuesOf(m);
    Field(l, v);
    if l.rest.Then? {
      Field(l.rest, v.rest);
      if l.rest.rest.Then? {
        Field(l.rest.rest, v.rest.rest);
        Field(l.rest.rest.rest, v.rest.rest.rest);
        LastField(FieldBytes(l.rest.rest.kind, v.rest.rest.value));
      } else {
        Field(l.rest.rest, v.rest.rest);
        LastField(FieldBytes(l.rest.kind, v.rest.value));
      }
    } else {
      Field(l.rest, v.rest);
      LastField(FieldBytes(l.kind, v.value));
    }
  }

  lemma LongPayload(m: Msg)
    requires Encodable(m) && (m.EnterOrder? || m.ExecReport? || m.CancelReplace?)
    ensures PutAll(LayoutOf(TypeOf(m)), ValuesOf(m)) == Payload(m)
  {
    hide AllFit, PutAll, Low;
    var l, v := LayoutOf(TypeOf(m)), ValuesOf(m);
    Fields2(l, v);
    var l2, v2 := l.rest.rest, v.rest.rest;
    Fields2(l2, v2);
    var l4, v4 := l2.rest.rest, v2.rest.rest;
    Field(l4, v4);
    Field(l4.rest, v4.rest);
    if l4.rest.Then? {
      Field(l4.rest.rest, v4.rest.rest);
      var l7, v7 := l4.rest.rest.rest, v4.rest.rest.rest;
      Field(l7, v7);
      if l7.Then? {
        Field(l7.rest, v7.rest);
        LastField(FieldBytes(l7.kind, v7.value));
      } else {
        LastField(FieldBytes(l4.rest.rest.kind, v4.rest.rest.value));
      }
    } else {
      LastField(FieldBytes(l4.kind, v4.value));
    }
  }

  /** The bytes of every message: the length of what follows, the type, and each field at its place. */
  lemma FrameBytes(m: Msg)
    requires Encodable(m)
    ensures Encode(m) == Low(1 + |Payload(m)|, 4) + [Code(m)] + Payload(m)
  {
    hide AllFit, PutAll, Low, PutLe, LayoutOf, ValuesOf, Payload;
    if m.EnterOrder? || m.ExecReport? || m.CancelReplace? {
      LongPayload(m);
    } else {
      ShortPayload(m);
    }
    SizesAgree(TypeOf(m));
    SmallFits(1 + PayloadSize(TypeOf(m)));
    LowIs(1 + PayloadSize(TypeOf(m)), LENGTH_SIZE);
  }

  lemma SmallFits(n: nat)
    requires n <= MAX_FRAME
    ensures FitsUnsigned(n, LENGTH_SIZE)
  {
    assert Pow256(LENGTH_SIZE) > 256 by {
      assert Pow256(1) == 256 && Pow256(2) == 256 * 256;
    }
  }
}
