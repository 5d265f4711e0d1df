/** The codec as the generated code runs it: a writer that appends and forks, a reader that
    moves a position, and the tables of the messages. */
module WireIO {
  import opened Orders
  import opened Wire
  import opened WireLaws

  // ----- the messages

  const CREATE_ORDER_REQUEST: seq<Field> := [
    Field(1, Text), Field(2, Text), Field(3, Text), Field(4, Text), Field(8, Text), Field(9, Text),
    Field(10, Text), Field(11, I32), Field(13, U64), Field(14, Text), Field(15, U32), Field(16, U32),
    Field(17, U64), Field(18, U64), Field(19, U64), Field(20, U64), Field(21, U64), Field(22, U64)]

  const CLOB_MATCH: seq<Field> := [
    Field(1, Text), Field(2, Sub(CREATE_ORDER_REQUEST)), Field(3, Sub(CREATE_ORDER_REQUEST)),
    Field(4, U64), Field(5, U64), Field(6, U64), Field(7, U64)]

  const ORDER_DETAIL: seq<Field> := [
    Field(1, Text), Field(2, Text), Field(6, U64), Field(7, U64), Field(8, U32), Field(9, U32)]

  const BOOK_SNAPSHOT: seq<Field> := [Field(1, Many(ORDER_DETAIL)), Field(2, Many(ORDER_DETAIL))]

  const ORDERS_FOR_USER_RESPONSE: seq<Field> := [Field(1, Many(CREATE_ORDER_REQUEST))]

  predicate IsMessage(fields: seq<Field>) {
    fields in [CREATE_ORDER_REQUEST, CLOB_MATCH, ORDER_DETAIL, BOOK_SNAPSHOT, ORDERS_FOR_USER_RESPONSE]
  }

  predicate NumbersAscend(fields: seq<Field>) {
    forall i :: 0 < i < |fields| ==> fields[i - 1].no < fields[i].no
  }

  lemma {:induction false} AscendingAreDistinct(fields: seq<Field>, i: nat, j: nat)
    requires NumbersAscend(fields) && i < j < |fields|
    ensures fields[i].no < fields[j].no
  {
    if i + 1 < j { AscendingAreDistinct(fields, i, j - 1); }
  }

  lemma AscendingTable(fields: seq<Field>)
    requires NumbersAscend(fields) && forall i :: 0 <= i < |fields| ==> GoodField(fields[i])
    ensures GoodTable(fields)
  {
    hide GoodField;
    forall i, j | 0 <= i < j < |fields| ensures fields[i].no != fields[j].no {
      AscendingAreDistinct(fields, i, j);
    }
  }

  lemma OrderTableIsGood()
    ensures GoodTable(CREATE_ORDER_REQUEST)
  {
    hide GoodTable;
    AscendingTable(CREATE_ORDER_REQUEST);
  }

  lemma DetailTableIsGood()
    ensures GoodTable(ORDER_DETAIL)
  {
    hide GoodTable;
    AscendingTable(ORDER_DETAIL);
  }

  lemma TablesAreGood(fields: seq<Field>)
    requires IsMessage(fields)
    ensures GoodTable(fields)
  {
    hide GoodTable, CREATE_ORDER_REQUEST, ORDER_DETAIL;
    OrderTableIsGood();
    DetailTableIsGood();
    AscendingTable(CLOB_MATCH);
    AscendingTable(BOOK_SNAPSHOT);
    AscendingTable(ORDERS_FOR_USER_RESPONSE);
  }

  /** For each of the five messages: reading the written bytes into a target merges, and into a
      new message gives the message back. */
  lemma MessagesRoundTrip(fields: seq<Field>, target: seq<Value>, message: seq<Value>, tail: seq<byte>)
    requires IsMessage(fields) && FitsAll(fields, message) && |target| == |fields|
    requires |Write(fields, message)| < P32
    ensures ReadFields(fields, Write(fields, message) + tail, |Write(fields, message)|, target)
         == Some(Parsed(MergeAll(fields, target, message), tail))
    ensures ReadFields(fields, Write(fields, message), |Write(fields, message)|, Blank(fields))
         == Some(Parsed(message, []))
  {
    hide ReadFields, Write, MergeAll, GoodTable, FitsAll, IsMessage;
    TablesAreGood(fields);
    ReadsIntoTarget(fields, target, message, tail);
    ReadsBack(fields, message);
  }

  // ----- writing

  class Writer {
    var buf: seq<byte>
    var stack: seq<seq<byte>>

    constructor ()
      ensures buf == [] && stack == []
    {
      buf, stack := [], [];
    }

    method Append(bytes: seq<byte>)
      modifies this`buf
      ensures buf == old(buf) + bytes
    {
      buf := buf + bytes;
    }

    method PutVarint(value: nat)
      modifies this`buf
      ensures buf == old(buf) + Varint(value)
    {
      var n := value;
      while n >= 128
        invariant old(buf) + Varint(value) == buf + Varint(n)
      {
        buf := buf + [128 + n % 128];
        n := n / 128;
      }
      buf := buf + [n];
    }

    method Fork()
      modifies this
      ensures stack == old(stack) + [old(buf)] && buf == []
    {
      stack, buf := stack + [buf], [];
    }

    /** Ends a fork: the forked bytes follow their length. */
    method Join()
      requires stack != []
      modifies this
      ensures stack == old(stack)[..|old(stack)| - 1]
      ensures buf == old(stack)[|old(stack)| - 1] + (Varint(|old(buf)|) + old(buf))
    {
      var body := buf;
      buf, stack := stack[|stack| - 1], stack[..|stack| - 1];
      PutVarint(|body|);
      Append(body);
    }

    method WriteSub(no: nat, fields: seq<Field>, message: seq<Value>)
      requires FitsAll(fields, message)
      modifies this
      ensures buf == old(buf) + Delimited(no, Write(fields, message)) && stack == old(stack)
      decreases message, 1
    {
      PutVarint(no * 8 + DELIMITED);
      Fork();
      WriteMessage(fields, message);
      Join();
    }

    /** The generated writer: each field in turn, unless it is at its default. */
    method WriteMessage(fields: seq<Field>, message: seq<Value>)
      requires FitsAll(fields, message)
      modifies this
      ensures buf == old(buf) + Write(fields, message) && stack == old(stack)
      decreases message, 0
    {
      hide Varint, Delimited;
      var k := 0;
      while k < |fields|
        invariant k <= |fields| && stack == old(stack)
        invariant old(buf) + Write(fields, message) == buf + WriteFrom(fields, message, k)
      {
        ghost var before := buf;
        assert Fits(fields[k].kind, message[k]);
        WriteSlot(fields[k], message[k]);
        assert before + (WriteField(fields[k], message[k]) + WriteFrom(fields, message, k + 1))
            == buf + WriteFrom(fields, message, k + 1);
        k := k + 1;
      }
    }

    method WriteList(no: nat, fields: seq<Field>, items: seq<Value>)
      requires forall i :: 0 <= i < |items| ==> items[i].Rec? && FitsAll(fields, items[i].slots)
      modifies this
      ensures buf == old(buf) + WriteItems(no, fields, items) && stack == old(stack)
      decreases items
    {
      hide Varint, Delimited, FitsAll;
      var i := 0;
      while i < |items|
        invariant i <= |items| && stack == old(stack)
        invariant old(buf) + WriteItems(no, fields, items) == buf + WriteItems(no, fields, items[i..])
      {
        ghost var before, rest := buf, WriteItems(no, fields, items[i + 1..]);
        assert items[i..][1..] == items[i + 1..];
        WriteSub(no, fields, items[i].slots);
        assert before + (Delimited(no, Write(fields, items[i].slots)) + rest) == buf + rest;
        i := i + 1;
      }
    }

    method WriteSlot(f: Field, v: Value)
      requires Fits(f.kind, v)
      modifies this
      ensures buf == old(buf) + WriteField(f, v) && stack == old(stack)
      decreases v
    {
      hide Varint, WriteItems, WriteFrom, FitsAll;
      match f.kind
      case Text =>
        if v.bytes != [] {
          PutVarint(f.no * 8 + DELIMITED);
          PutVarint(|v.bytes|);
          Append(v.bytes);
        }
      case Sub(fs) =>
        if v.Rec? {
          WriteSub(f.no, fs, v.slots);
        }
      case Many(fs) =>
        WriteList(f.no, fs, v.items);
      case I32 =>
        if v.n != 0 {
          PutVarint(f.no * 8 + VARINT);
          PutVarint(Unsigned(v.n));
        }
      case _ =>
        if v.n != 0 {
          PutVarint(f.no * 8 + VARINT);
          PutVarint(v.n);
        }
    }
  }

  // ----- reading

  class Reader {
    const buf: seq<byte>
    var pos: nat

    predicate Valid()
      reads this
    {
      pos <= |buf|
    }

    function Left(): seq<byte>
      requires Valid()
      reads this
    {
      buf[pos..]
    }

    constructor (bytes: seq<byte>)
      ensures Valid() && buf == bytes && pos == 0
    {
      buf, pos := bytes, 0;
    }

    /** A result read so far, with the bytes still to read. */
    function Got<T>(r: Option<T>): Option<Parsed<T>>
      requires Valid()
      reads this
    {
      if r.None? then None else Some(Parsed(r.value, Left()))
    }

    method GetVarint() returns (r: Option<int>)
      requires Valid()
      modifies this`pos
      ensures Valid() && old(pos) <= pos && Got(r) == ReadVarint(old(Left()), VARINT_ROOM)
    {
      var acc, scale, room := 0, 1, VARINT_ROOM;
      while room > 0 && pos < |buf|
        invariant Valid() && old(pos) <= pos && room >= 0
        invariant ReadVarint(old(Left()), VARINT_ROOM) == Scaled(acc, scale, ReadVarint(Left(), room))
        decreases room
      {
        var b: int := buf[pos];
        assert Left() == [b] + buf[pos + 1..];
        pos := pos + 1;
        if b < 128 {
          return Some(acc + scale * b);
        }
        ScaledNext(acc, scale, b, Left(), room);
        acc := acc + scale * (b - 128);
        scale := scale * 128;
        room := room - 1;
      }
      r := None;
    }

    method GetU32() returns (r: Option<int>)
      requires Valid()
      modifies this`pos
      ensures Valid() && old(pos) <= pos && Got(r) == ReadU32(old(Left()))
    {
      var v := GetVarint();
      r := if v.None? then None else Some(v.value % P32);
    }

    method GetScalar(k: Kind) returns (r: Option<Value>)
      requires Valid()
      modifies this`pos
      ensures Valid() && old(pos) <= pos && Got(r) == ReadScalar(k, old(Left()))
    {
      if k.Text? {
        var len := GetU32();
        if len.None? || pos + len.value > |buf| {
          return None;
        }
        var bytes := buf[pos..pos + len.value];
        assert bytes == Left()[..len.value] && buf[pos + len.value..] == Left()[len.value..];
        pos := pos + len.value;
        return Some(Bytes(bytes));
      }
      var v := GetVarint();
      if v.None? {
        return None;
      }
      var n := v.value;
      r := Some(Num(if k.U64? then n % P64 else if k.U32? then n % P32 else Signed(n % P32)));
    }

    method SkipField(wireType: nat) returns (r: Option<()>)
      requires Valid()
      modifies this`pos
      ensures Valid() && old(pos) <= pos && Got(r) == Skip(wireType, old(Left()))
      decreases |buf| - pos, 1
    {
      if wireType == VARINT {
        var v := GetVarint();
        return if v.None? then None else Some(());
      }
      if wireType == START_GROUP {
        r := SkipGroupFields();
        return;
      }
      var size := if wireType == FIXED64 then 8 else 4;
      if wireType == DELIMITED {
        var len := GetU32();
        if len.None? {
          return None;
        }
        size := len.value;
      } else if wireType != FIXED64 && wireType != FIXED32 {
        return None;
      }
      if pos + size > |buf| {
        return None;
      }
      assert buf[pos + size..] == Left()[size..];
      pos := pos + size;
      r := Some(());
    }

    method SkipGroupFields() returns (r: Option<()>)
      requires Valid()
      modifies this`pos
      ensures Valid() && old(pos) <= pos && Got(r) == SkipGroup(old(Left()))
      decreases |buf| - pos, 0
    {
      var key := GetU32();
      if key.None? || key.value / 8 == 0 || key.value % 8 > 5 {
        return None;
      }
      if key.value % 8 == END_GROUP {
        return Some(());
      }
      ReadU32Moves(old(Left()));
      r := SkipField(key.value % 8);
      if r.Some? {
        r := SkipGroupFields();
      }
    }

    method GetValue(k: Kind, slot: Value) returns (r: Option<Value>)
      requires Valid()
      modifies this`pos
      ensures Valid() && old(pos) <= pos && Got(r) == ReadValue(k, old(Left()), slot)
      decreases |buf| - pos, 0
    {
      hide ReadScalar, Blank, SlotsOr;
      if !k.Sub? && !k.Many? {
        r := GetScalar(k);
        return;
      }
      var len := GetU32();
      if len.None? {
        return None;
      }
      ReadU32Moves(old(Left()));
      var sub := ReadMessage(k.fields, len.value, if k.Sub? then SlotsOr(slot, k.fields) else Blank(k.fields));
      if sub.None? {
        return None;
      }
      r := Some(if k.Sub? then Rec(sub.value) else List(ItemsOr(slot) + [Rec(sub.value)]));
    }

    /** The generated reader: fields into the target until `length` bytes are used up. */
    method ReadMessage(fields: seq<Field>, length: int, target: seq<Value>) returns (r: Option<seq<Value>>)
      requires Valid() && |target| == |fields|
      modifies this`pos
      ensures Valid() && old(pos) <= pos && Got(r) == ReadFields(fields, old(Left()), length, target)
      ensures r.Some? ==> |r.value| == |fields|
      decreases |buf| - pos, 2
    {
      hide ReadU32, IndexOf, Skip, ReadValue;
      var message, end := target, pos + length;
      while pos < end
        invariant Valid() && old(pos) <= pos && |message| == |fields|
        invariant ReadFields(fields, old(Left()), length, target) == ReadFields(fields, Left(), end - pos, message)
        decreases |buf| - pos
      {
        ghost var s := Left();
        ReadU32Moves(s);
        var key := GetU32();
        if key.None? || key.value / 8 == 0 || key.value % 8 > 5 {
          return None;
        }
        var k := IndexOf(fields, key.value / 8);
        if k == |fields| {
          var skipped := SkipField(key.value % 8);
          if skipped.None? {
            return None;
          }
        } else {
          var v := GetValue(fields[k].kind, message[k]);
          if v.None? {
            return None;
          }
          message := message[k := v.value];
        }
      }
      r := Some(message);
    }
  }

  function Scaled(acc: int, scale: int, r: Option<Parsed<int>>): Option<Parsed<int>> {
    if r.None? then None else Some(Parsed(acc + scale * r.value.value, r.value.rest))
  }

  lemma ScaledNext(acc: int, scale: int, b: byte, rest: seq<byte>, room: nat)
    requires room > 0 && b >= 128
    ensures Scaled(acc, scale, ReadVarint([b] + rest, room))
         == Scaled(acc + scale * (b - 128), scale * 128, ReadVarint(rest, room - 1))
  {
    assert ([b] + rest)[1..] == rest;
    var more := ReadVarint(rest, room - 1);
    if more.Some? {
      var v := more.value.value;
      assert scale * (b - 128 + 128 * v) == scale * (b - 128) + scale * 128 * v;
    }
  }

  lemma ReadU32Moves(s: seq<byte>)
    ensures ReadU32(s).Some? ==> |ReadU32(s).value.rest| < |s|
  {
  }
}
