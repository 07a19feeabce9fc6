/** The 48 bytes of a journaled command: five signed 64-bit fields, three bytes that name kind, side and type, and
    padding. */
module Payloads {
  import opened Types
  import opened Bytes
  import opened JournalFormat

  function PutSigned(v: int): (s: seq<byte>)
    requires FitsSigned(v, 8)
    ensures |s| == 8
  {
    SignedRoundTrip(v, 8);
    PutLe(ToUnsigned(v, 8), 8)
  }

  function GetSigned(s: seq<byte>): int {
    ToSigned(GetLe(s), 8)
  }

  lemma SignedReads(v: int)
    requires FitsSigned(v, 8)
    ensures GetSigned(PutSigned(v)) == v
  {
    SignedRoundTrip(v, 8);
    GetPut(ToUnsigned(v, 8), 8);
  }

  // The fields of the structure, whatever the verb makes of them.
  datatype Fields = Fields(id: int, newId: int, price: int, quantity: int, participant: int, kind: byte, side: byte, kindOfOrder: byte)

  predicate FieldsFit(f: Fields) {
    FitsSigned(f.id, 8) && FitsSigned(f.newId, 8) && FitsSigned(f.price, 8) && FitsSigned(f.quantity, 8) && FitsSigned(f.participant, 8)
  }

  function Image(f: Fields, padding: seq<byte>): (s: seq<byte>)
    requires FieldsFit(f) && |padding| == 5
    ensures |s| == PAYLOAD
  {
    PutSigned(f.id) + PutSigned(f.newId) + PutSigned(f.price) + PutSigned(f.quantity) + PutSigned(f.participant)
    + [f.kind, f.side, f.kindOfOrder] + padding
  }

  function FieldsOf(s: seq<byte>): Fields
    requires |s| == PAYLOAD
  {
    Fields(GetSigned(s[..8]), GetSigned(s[8..16]), GetSigned(s[16..24]), GetSigned(s[24..32]), GetSigned(s[32..40]), s[40], s[41], s[42])
  }

  lemma FieldsRead(f: Fields, padding: seq<byte>)
    requires FieldsFit(f) && |padding| == 5
    ensures FieldsOf(Image(f, padding)) == f
  {
    hide PutSigned, GetSigned, FitsSigned;
    var s := Image(f, padding);
    assert s[..8] == PutSigned(f.id) && s[8..16] == PutSigned(f.newId) && s[16..24] == PutSigned(f.price);
    assert s[24..32] == PutSigned(f.quantity) && s[32..40] == PutSigned(f.participant);
    SignedReads(f.id);
    SignedReads(f.newId);
    SignedReads(f.price);
    SignedReads(f.quantity);
    SignedReads(f.participant);
  }

  // ---------------------------------------------------------------------------------------------
  // Commands
  // ---------------------------------------------------------------------------------------------

  function SideByte(s: Side): byte {
    if s.Buy? then 0 else 1
  }

  function TypeByte(t: OrderType): byte {
    match t case Limit => 0 case Market => 1 case Ioc => 2 case Fok => 3
  }

  function OrderFields(id: int, newId: int, o: NewOrder, kind: byte): Fields {
    Fields(id, newId, o.price, o.quantity, o.participant, kind, SideByte(o.side), TypeByte(o.kind))
  }

  // What a command's structure holds; `spare` fills the fields its verb does not use.
  function FieldsFor(c: Command, spare: Fields): Fields {
    match c
    case New(o) => OrderFields(o.id, spare.newId, o, 0)
    case Cancel(id) => spare.(id := id, kind := 1)
    case Replace(oldId, o) => OrderFields(oldId, o.id, o, 2)
  }

  function SideFrom(b: byte): Option<Side> {
    if b == 0 then Some(Buy) else if b == 1 then Some(Sell) else None
  }

  function TypeFrom(b: byte): Option<OrderType> {
    if b == 0 then Some(Limit) else if b == 1 then Some(Market) else if b == 2 then Some(Ioc) else if b == 3 then Some(Fok) else None
  }

  // `toNewOrder` on the fields.
  function OrderFrom(id: int, f: Fields): Option<NewOrder> {
    var side, t := SideFrom(f.side), TypeFrom(f.kindOfOrder);
    if side.Some? && t.Some? then Some(NewOrder(id, f.price, f.quantity, f.participant, side.value, t.value)) else None
  }

  // The command a record stands for, by the kind in the record's own header; nothing for bytes no writer writes.
  function CommandFrom(kind: byte, payload: seq<byte>): Option<Command>
    requires |payload| == PAYLOAD
  {
    var f := FieldsOf(payload);
    if kind == 0 then
      var o := OrderFrom(f.id, f);
      if o.Some? then Some(New(o.value)) else None
    else if kind == 1 then Some(Cancel(f.id))
    else if kind == 2 then
      var o := OrderFrom(f.newId, f);
      if o.Some? then Some(Replace(f.id, o.value)) else None
    else None
  }

  /** A command reads back from its structure, whatever is in the fields it does not use and in the padding. */
  lemma CommandReads(c: Command, spare: Fields, padding: seq<byte>)
    requires FieldsFit(FieldsFor(c, spare)) && |padding| == 5
    ensures var f := FieldsFor(c, spare); CommandFrom(f.kind, Image(f, padding)) == Some(c)
  {
    hide FieldsOf, Image, FitsSigned;
    FieldsRead(FieldsFor(c, spare), padding);
  }

  /** What the bytes mean: which of them hold a command, and where each of its terms lies. */
  lemma CommandIs(kind: byte, payload: seq<byte>)
    requires |payload| == 48
    ensures var c, orderly := CommandFrom(kind, payload), payload[41] <= 1 && payload[42] <= 3;
      && (c.Some? <==> kind == 1 || ((kind == 0 || kind == 2) && orderly))
      && (c.Some? && kind == 1 ==> c.value == Cancel(GetSigned(payload[..8])))
      && (c.Some? && kind != 1 ==>
            && (if kind == 0 then c.value.New? else c.value.Replace? && c.value.oldId == GetSigned(payload[..8]))
            && var o := if kind == 0 then c.value.order else c.value.amended;
            && o.id == GetSigned(if kind == 0 then payload[..8] else payload[8..16])
            && o.price == GetSigned(payload[16..24]) && o.quantity == GetSigned(payload[24..32])
            && o.participant == GetSigned(payload[32..40]) && o.side == [Buy, Sell][payload[41]]
            && o.kind == [Limit, Market, Ioc, Fok][payload[42]])
  {
    hide GetSigned;
  }

  // ---------------------------------------------------------------------------------------------
  // Journals
  // ---------------------------------------------------------------------------------------------

  // The record holds this command.
  predicate Holds(r: Record, c: Command) {
    |r.payload| == PAYLOAD && CommandFrom(r.kind, r.payload) == Some(c)
  }

  ghost predicate HoldAll(recs: seq<Record>, cs: seq<Command>) {
    |recs| == |cs| && forall i :: 0 <= i < |recs| ==> Holds(recs[i], cs[i])
  }

  // The commands of the records up to the first that holds none.
  function CommandsOf(recs: seq<Record>): seq<Command> {
    if recs == [] || |recs[0].payload| != PAYLOAD then []
    else
      match CommandFrom(recs[0].kind, recs[0].payload)
      case None => []
      case Some(c) => [c] + CommandsOf(recs[1..])
  }

  lemma {:induction false} CommandsHeld(recs: seq<Record>, cs: seq<Command>)
    requires HoldAll(recs, cs)
    ensures CommandsOf(recs) == cs
  {
    hide CommandFrom;
    if recs != [] {
      assert Holds(recs[0], cs[0]);
      assert forall i :: 0 <= i < |recs[1..]| ==> recs[1..][i] == recs[i + 1] && cs[1..][i] == cs[i + 1];
      CommandsHeld(recs[1..], cs[1..]);
    }
  }
}
