/** The binary message codec. The primitives follow the Protocol Buffers "Encoding"
    specification, sections "Base 128 Varints", "Length-Delimited Records" and "Last One
    Wins"; the messages are given by their tables of field numbers and types, which the
    generated reader's `switch` and the generated writer's sequence of `if`s spell out. */
module Wire {
  import opened Orders

  type byte = x: int | 0 <= x < 256

  const P32: int := 0x1_0000_0000
  const P64: int := 0x1_0000_0000_0000_0000

  datatype Kind = Text | U64 | U32 | I32 | Sub(fields: seq<Field>) | Many(fields: seq<Field>)
  datatype Field = Field(no: nat, kind: Kind)

  /** One slot of a message: text as its bytes, a number, an unset or set submessage, or a
      repeated field. A message is its slots, in the order of its table. */
  datatype Value = Bytes(bytes: seq<byte>) | Num(n: int) | Unset | Rec(slots: seq<Value>) | List(items: seq<Value>)

  function Default(k: Kind): Value {
    match k
    case Text => Bytes([])
    case Sub(_) => Unset
    case Many(_) => List([])
    case _ => Num(0)
  }

  function Blank(fields: seq<Field>): (r: seq<Value>)
    ensures |r| == |fields|
  {
    seq(|fields|, i requires 0 <= i < |fields| => Default(fields[i].kind))
  }

  // ----- writing

  function Varint(n: nat): seq<byte> {
    if n < 128 then [n] else [128 + n % 128] + Varint(n / 128)
  }

  function Tag(no: nat, wireType: nat): seq<byte> { Varint(no * 8 + wireType) }

  const VARINT := 0
  const FIXED64 := 1
  const DELIMITED := 2
  const START_GROUP := 3
  const END_GROUP := 4
  const FIXED32 := 5

  function Delimited(no: nat, body: seq<byte>): seq<byte> {
    Tag(no, DELIMITED) + Varint(|body|) + body
  }

  /** A field at its default is not written; a set submessage is, even when it is blank. */
  function WriteField(f: Field, v: Value): seq<byte>
    decreases v, 0
  {
    match (f.kind, v)
    case (Text, Bytes(b)) => if b == [] then [] else Delimited(f.no, b)
    case (U64, Num(n)) => if n <= 0 then [] else Tag(f.no, VARINT) + Varint(n)
    case (U32, Num(n)) => if n <= 0 then [] else Tag(f.no, VARINT) + Varint(n)
    case (I32, Num(n)) => if n == 0 then [] else Tag(f.no, VARINT) + Varint(Unsigned(n))
    case (Sub(fs), Rec(slots)) => Delimited(f.no, WriteFrom(fs, slots, 0))
    case (Many(fs), List(items)) => WriteItems(f.no, fs, items)
    case _ => []
  }

  /** A negative int32 is sign-extended to 64 bits. */
  function Unsigned(n: int): nat {
    if n < 0 then (if n + P64 >= 0 then n + P64 else 0) else n
  }

  function WriteItems(no: nat, fs: seq<Field>, items: seq<Value>): seq<byte>
    decreases items, 0
  {
    if items == [] then []
    else (if items[0].Rec? then Delimited(no, WriteFrom(fs, items[0].slots, 0)) else [])
         + WriteItems(no, fs, items[1..])
  }

  /** The fields of a message from the `k`-th of its table on. */
  function WriteFrom(fields: seq<Field>, slots: seq<Value>, k: nat): seq<byte>
    decreases slots, |fields| - k
  {
    if k >= |fields| || k >= |slots| then []
    else WriteField(fields[k], slots[k]) + WriteFrom(fields, slots, k + 1)
  }

  function Write(fields: seq<Field>, slots: seq<Value>): seq<byte> { WriteFrom(fields, slots, 0) }

  // ----- reading

  datatype Parsed<+T> = Parsed(value: T, rest: seq<byte>)

  /** At most `room` bytes; None when they run out or the last still says more. */
  function ReadVarint(s: seq<byte>, room: nat): (r: Option<Parsed<int>>)
    ensures r.Some? ==> |r.value.rest| < |s| && r.value.value >= 0
  {
    if room == 0 || s == [] then None
    else if s[0] < 128 then Some(Parsed(s[0], s[1..]))
    else
      var more := ReadVarint(s[1..], room - 1);
      if more.None? then None else Some(Parsed(s[0] - 128 + 128 * more.value.value, more.value.rest))
  }

  const VARINT_ROOM: nat := 10

  function ReadU32(s: seq<byte>): (r: Option<Parsed<int>>)
    ensures r.Some? ==> |r.value.rest| < |s| && 0 <= r.value.value < P32
  {
    var v := ReadVarint(s, VARINT_ROOM);
    if v.None? then None else Some(Parsed(v.value.value % P32, v.value.rest))
  }

  function ReadScalar(k: Kind, s: seq<byte>): (r: Option<Parsed<Value>>)
    ensures r.Some? ==> |r.value.rest| < |s|
  {
    if k.Text? then
      var len := ReadU32(s);
      if len.None? || len.value.value > |len.value.rest| then None
      else Some(Parsed(Bytes(len.value.rest[..len.value.value]), len.value.rest[len.value.value..]))
    else
      var v := ReadVarint(s, VARINT_ROOM);
      if v.None? then None
      else
        var n := v.value.value;
        Some(Parsed(Num(if k.U64? then n % P64 else if k.U32? then n % P32 else Signed(n % P32)), v.value.rest))
  }

  function Signed(n: nat): int {
    if n >= P32 / 2 then n - P32 else n
  }

  function IndexOf(fields: seq<Field>, no: nat): (k: nat)
    ensures k <= |fields| && (k < |fields| ==> fields[k].no == no)
    ensures forall i :: 0 <= i < k ==> fields[i].no != no
  {
    if fields == [] || fields[0].no == no then 0 else 1 + IndexOf(fields[1..], no)
  }

  function SlotsOr(v: Value, fs: seq<Field>): (r: seq<Value>)
    ensures |r| == |fs|
  {
    if v.Rec? && |v.slots| == |fs| then v.slots else Blank(fs)
  }

  function ItemsOr(v: Value): seq<Value> { if v.List? then v.items else [] }

  /** An unknown field is passed over by its wire type. */
  function Skip(wireType: nat, s: seq<byte>): (r: Option<Parsed<()>>)
    ensures r.Some? ==> |r.value.rest| <= |s|
    decreases |s|, 1
  {
    if wireType == VARINT then
      var v := ReadVarint(s, VARINT_ROOM);
      if v.None? then None else Some(Parsed((), v.value.rest))
    else if wireType == FIXED64 then if |s| < 8 then None else Some(Parsed((), s[8..]))
    else if wireType == FIXED32 then if |s| < 4 then None else Some(Parsed((), s[4..]))
    else if wireType == DELIMITED then
      var len := ReadU32(s);
      if len.None? || len.value.value > |len.value.rest| then None
      else Some(Parsed((), len.value.rest[len.value.value..]))
    else if wireType == START_GROUP then SkipGroup(s)
    else None
  }

  function SkipGroup(s: seq<byte>): (r: Option<Parsed<()>>)
    ensures r.Some? ==> |r.value.rest| <= |s|
    decreases |s|, 0
  {
    var key := ReadU32(s);
    if key.None? || key.value.value / 8 == 0 || key.value.value % 8 > 5 then None
    else if key.value.value % 8 == END_GROUP then Some(Parsed((), key.value.rest))
    else
      var skipped := Skip(key.value.value % 8, key.value.rest);
      if skipped.None? then None else SkipGroup(skipped.value.rest)
  }

  /** A field's new slot: the last scalar wins, a submessage is read into the one already
      there, a repeated field grows. */
  function ReadValue(k: Kind, s: seq<byte>, slot: Value): (r: Option<Parsed<Value>>)
    ensures r.Some? ==> |r.value.rest| < |s|
    decreases |s|, 0
  {
    if k.Sub? || k.Many? then
      var len := ReadU32(s);
      if len.None? then None
      else
        var target := if k.Sub? then SlotsOr(slot, k.fields) else Blank(k.fields);
        var sub := ReadFields(k.fields, len.value.rest, len.value.value, target);
        if sub.None? then None
        else
          var rec := Rec(sub.value.value);
          Some(Parsed(if k.Sub? then rec else List(ItemsOr(slot) + [rec]), sub.value.rest))
    else ReadScalar(k, s)
  }

  /** One tag and its field. A known field is read by its own type, whatever wire type the
      tag gives. */
  function ReadOne(fields: seq<Field>, s: seq<byte>, slots: seq<Value>): (r: Option<Parsed<seq<Value>>>)
    requires |slots| == |fields|
    ensures r.Some? ==> |r.value.rest| < |s| && |r.value.value| == |fields|
    decreases |s|, 1
  {
    var key := ReadU32(s);
    if key.None? || key.value.value / 8 == 0 || key.value.value % 8 > 5 then None
    else
      var k := IndexOf(fields, key.value.value / 8);
      if k == |fields| then
        var skipped := Skip(key.value.value % 8, key.value.rest);
        if skipped.None? then None else Some(Parsed(slots, skipped.value.rest))
      else
        var v := ReadValue(fields[k].kind, key.value.rest, slots[k]);
        if v.None? then None else Some(Parsed(slots[k := v.value.value], v.value.rest))
  }

  /** Fields until `left` bytes are used up. */
  function ReadFields(fields: seq<Field>, s: seq<byte>, left: int, slots: seq<Value>): (r: Option<Parsed<seq<Value>>>)
    requires |slots| == |fields|
    ensures r.Some? ==> |r.value.rest| <= |s| && |r.value.value| == |fields|
    decreases |s|, 2
  {
    if left <= 0 then Some(Parsed(slots, s))
    else
      var one := ReadOne(fields, s, slots);
      if one.None? then None
      else ReadFields(fields, one.value.rest, left - (|s| - |one.value.rest|), one.value.value)
  }

  // ----- what a message may hold, and what reading into a target means

  predicate Fits(k: Kind, v: Value)
    decreases v, 0
  {
    match k
    case Text => v.Bytes?
    case U64 => v.Num? && 0 <= v.n < P64
    case U32 => v.Num? && 0 <= v.n < P32
    case I32 => v.Num? && -P32 / 2 <= v.n < P32 / 2
    case Sub(fs) => v.Unset? || (v.Rec? && FitsAll(fs, v.slots))
    case Many(fs) => v.List? && forall i :: 0 <= i < |v.items| ==> v.items[i].Rec? && FitsAll(fs, v.items[i].slots)
  }

  predicate FitsAll(fields: seq<Field>, slots: seq<Value>)
    decreases slots, 1
  {
    |slots| == |fields| && forall i :: 0 <= i < |slots| ==> Fits(fields[i].kind, slots[i])
  }

  /** Distinct field numbers that a tag can hold, at every level. */
  predicate GoodTable(fields: seq<Field>)
    decreases fields
  {
    && (forall i, j :: 0 <= i < j < |fields| ==> fields[i].no != fields[j].no)
    && forall i :: 0 <= i < |fields| ==> GoodField(fields[i])
  }

  predicate GoodField(f: Field)
    decreases f
  {
    0 < f.no < 0x2000_0000 && match f.kind
                              case Sub(fs) => GoodTable(fs)
                              case Many(fs) => GoodTable(fs)
                              case _ => true
  }

  /** Field by field: a value at its default leaves the target's, a scalar overwrites it,
      submessages merge, repeated fields append. */
  function Merge(k: Kind, t: Value, v: Value): Value
    decreases v, 0
  {
    match k
    case Sub(fs) => if v.Rec? then Rec(MergeAll(fs, SlotsOr(t, fs), v.slots)) else t
    case Many(_) => if v.List? && v.items != [] then List(ItemsOr(t) + v.items) else t
    case _ => if v == Default(k) then t else v
  }

  function MergeAll(fields: seq<Field>, t: seq<Value>, slots: seq<Value>): (r: seq<Value>)
    requires |t| == |fields|
    ensures |r| == |fields|
    decreases slots, 1
  {
    seq(|fields|, i requires 0 <= i < |fields| =>
      if i < |slots| then Merge(fields[i].kind, t[i], slots[i]) else t[i])
  }
}
