/** Reading what was written merges it into the target, for every table of fields. */
module WireLaws {
  import opened Orders
  import opened Wire

  // ----- the primitives

  function Room(k: nat): nat { if k == 0 then 1 else 128 * Room(k - 1) }

  lemma {:induction false} VarintRoundTrip(n: nat, room: nat, tail: seq<byte>)
    requires room > 0 && n < Room(room)
    ensures ReadVarint(Varint(n) + tail, room) == Some(Parsed(n, tail))
  {
    hide ReadVarint, Room;
    if n < 128 {
      LastByte(n, tail, room);
    } else {
      RoomBelow(room);
      Digits(n, Room(room - 1));
      VarintRoundTrip(n / 128, room - 1, tail);
      MoreToCome(n % 128, Varint(n / 128) + tail, room);
      assert Varint(n) + tail == [128 + n % 128] + (Varint(n / 128) + tail);
    }
  }

  lemma RoomBelow(room: nat)
    requires room > 0
    ensures Room(room) == 128 * Room(room - 1) && (room == 1 ==> Room(room) == 128)
  {
  }

  lemma LastByte(n: byte, tail: seq<byte>, room: nat)
    requires n < 128 && room > 0
    ensures ReadVarint([n] + tail, room) == Some(Parsed(n, tail))
  {
    assert ([n] + tail)[1..] == tail;
  }

  lemma Digits(n: nat, room: nat)
    requires n < 128 * room
    ensures n / 128 < room && n == n % 128 + 128 * (n / 128)
  {
  }

  lemma MoreToCome(digit: nat, s: seq<byte>, room: nat)
    requires digit < 128 && room > 0
    ensures ReadVarint([128 + digit] + s, room) ==
            if ReadVarint(s, room - 1).None? then None
            else Some(Parsed(digit + 128 * ReadVarint(s, room - 1).value.value, ReadVarint(s, room - 1).value.rest))
  {
    assert ([128 + digit as byte] + s)[1..] == s;
  }

  lemma NineBytesHold63Bits()
    ensures Room(9) == 0x8000_0000_0000_0000
  {
    assert Room(5) == 128 * 128 * 128 * 128 * 128 by { assert Room(2) == 128 * 128; assert Room(4) == 128 * 128 * Room(2); }
    assert Room(8) == 128 * 128 * 128 * Room(5) by { assert Room(7) == 128 * 128 * Room(5); }
  }

  lemma TenBytesHold64Bits()
    ensures Room(VARINT_ROOM) >= P64
  {
    NineBytesHold63Bits();
    assert Room(10) == 128 * Room(9);
  }

  lemma ReadsVarint(n: nat, tail: seq<byte>)
    requires n < P64
    ensures ReadVarint(Varint(n) + tail, VARINT_ROOM) == Some(Parsed(n, tail))
    ensures n < P32 ==> ReadU32(Varint(n) + tail) == Some(Parsed(n, tail))
  {
    TenBytesHold64Bits();
    VarintRoundTrip(n, VARINT_ROOM, tail);
  }

  lemma {:induction false} VarintNotEmpty(n: nat)
    ensures Varint(n) != []
  {
  }

  /** The tag of a known field leads the reader to that field's slot. */
  lemma ReadsTag(fields: seq<Field>, k: nat, wireType: nat, tail: seq<byte>)
    requires GoodTable(fields) && k < |fields| && wireType <= 5
    ensures ReadU32(Tag(fields[k].no, wireType) + tail) == Some(Parsed(fields[k].no * 8 + wireType, tail))
    ensures (fields[k].no * 8 + wireType) / 8 == fields[k].no && (fields[k].no * 8 + wireType) % 8 == wireType
    ensures IndexOf(fields, fields[k].no) == k && fields[k].no > 0
  {
    hide Varint, ReadVarint;
    assert GoodField(fields[k]);
    ReadsVarint(fields[k].no * 8 + wireType, tail);
    var i := IndexOf(fields, fields[k].no);
    assert i <= k;
  }

  lemma ReadsNumber(f: Field, v: Value, tail: seq<byte>)
    requires f.kind.U64? || f.kind.U32? || f.kind.I32?
    requires Fits(f.kind, v) && v.n != 0
    ensures exists payload ::
              WriteField(f, v) == Tag(f.no, VARINT) + payload
              && ReadScalar(f.kind, payload + tail) == Some(Parsed(v, tail))
  {
    hide Varint, ReadVarint, Tag;
    var n := if f.kind.I32? then Unsigned(v.n) else v.n;
    ReadsVarint(n, tail);
    if f.kind.I32? && v.n < 0 {
      assert (v.n + P64) % P32 == v.n + P32;
    }
    assert WriteField(f, v) == Tag(f.no, VARINT) + Varint(n);
  }

  // ----- one field at a time

  /** A field that is read whole moves the reader past it. */
  lemma OneThenRest(fields: seq<Field>, w: seq<byte>, more: seq<byte>, n: nat, slots: seq<Value>, slots': seq<Value>)
    requires |slots| == |fields| && |slots'| == |fields| && w != []
    requires ReadOne(fields, w + more, slots) == Some(Parsed(slots', more))
    ensures ReadFields(fields, w + more, |w| + n, slots) == ReadFields(fields, more, n, slots')
  {
    hide ReadOne;
  }

  /** A tag and a payload that reads to a value put the value in the tag's slot. */
  lemma TaggedRead(fields: seq<Field>, k: nat, wireType: nat, payload: seq<byte>, slots: seq<Value>, more: seq<byte>, v: Value)
    requires GoodTable(fields) && k < |fields| && |slots| == |fields| && wireType <= 5
    requires ReadValue(fields[k].kind, payload + more, slots[k]) == Some(Parsed(v, more))
    ensures Tag(fields[k].no, wireType) + payload != []
    ensures ReadOne(fields, Tag(fields[k].no, wireType) + payload + more, slots) == Some(Parsed(slots[k := v], more))
  {
    hide Varint, GoodTable, ReadU32, IndexOf, ReadValue;
    var no := fields[k].no;
    VarintNotEmpty(no * 8 + wireType);
    assert Tag(no, wireType) + payload + more == Tag(no, wireType) + (payload + more);
    ReadsTag(fields, k, wireType, payload + more);
  }

  lemma ScalarRead(fields: seq<Field>, k: nat, v: Value, slots: seq<Value>, more: seq<byte>)
    requires GoodTable(fields) && k < |fields| && |slots| == |fields|
    requires !fields[k].kind.Sub? && !fields[k].kind.Many?
    requires Fits(fields[k].kind, v) && v != Default(fields[k].kind)
    requires v.Bytes? ==> |v.bytes| < P32
    ensures WriteField(fields[k], v) != []
    ensures ReadOne(fields, WriteField(fields[k], v) + more, slots) == Some(Parsed(slots[k := v], more))
  {
    hide Varint, GoodTable, ReadOne, WriteField, ReadScalar;
    var f := fields[k];
    if f.kind.Text? {
      TextRead(f, v, more);
    } else {
      ReadsNumber(f, v, more);
    }
    var wireType := if f.kind.Text? then DELIMITED else VARINT;
    var payload :| WriteField(f, v) == Tag(f.no, wireType) + payload
                && ReadScalar(f.kind, payload + more) == Some(Parsed(v, more));
    TaggedRead(fields, k, wireType, payload, slots, more, v);
  }

  lemma TextRead(f: Field, v: Value, tail: seq<byte>)
    requires f.kind.Text? && v.Bytes? && v.bytes != [] && |v.bytes| < P32
    ensures exists payload ::
              WriteField(f, v) == Tag(f.no, DELIMITED) + payload
              && ReadScalar(f.kind, payload + tail) == Some(Parsed(v, tail))
  {
    hide Varint, ReadVarint, Tag, ReadU32;
    var b := v.bytes;
    var payload := Varint(|b|) + b;
    assert payload + tail == Varint(|b|) + (b + tail);
    ReadsVarint(|b|, b + tail);
    assert (b + tail)[..|b|] == b && (b + tail)[|b|..] == tail;
    assert WriteField(f, v) == Tag(f.no, DELIMITED) + payload;
  }

  /** The slot a submessage read as `result` goes into. */
  function WithSub(k: Kind, slot: Value, result: seq<Value>): Value {
    if k.Sub? then Rec(result) else List(ItemsOr(slot) + [Rec(result)])
  }

  function SubTarget(k: Kind, slot: Value): seq<Value>
    requires k.Sub? || k.Many?
    ensures |SubTarget(k, slot)| == |k.fields|
  {
    if k.Sub? then SlotsOr(slot, k.fields) else Blank(k.fields)
  }

  lemma SubValue(k: Kind, body: seq<byte>, slot: Value, more: seq<byte>, result: seq<Value>)
    requires k.Sub? || k.Many?
    requires |body| < P32
    requires ReadFields(k.fields, body + more, |body|, SubTarget(k, slot)) == Some(Parsed(result, more))
    ensures ReadValue(k, Varint(|body|) + body + more, slot) == Some(Parsed(WithSub(k, slot, result), more))
  {
    hide Varint, ReadFields, ReadU32, SlotsOr, Blank, ItemsOr;
    assert Varint(|body|) + body + more == Varint(|body|) + (body + more);
    ReadsVarint(|body|, body + more);
  }

  /** A length-delimited submessage, given that its body reads back to `result`. */
  lemma SubRead(fields: seq<Field>, k: nat, body: seq<byte>, slots: seq<Value>, more: seq<byte>, result: seq<Value>)
    requires GoodTable(fields) && k < |fields| && |slots| == |fields|
    requires fields[k].kind.Sub? || fields[k].kind.Many?
    requires |body| < P32
    requires ReadFields(fields[k].kind.fields, body + more, |body|, SubTarget(fields[k].kind, slots[k]))
             == Some(Parsed(result, more))
    ensures Delimited(fields[k].no, body) != []
    ensures ReadOne(fields, Delimited(fields[k].no, body) + more, slots) ==
            Some(Parsed(slots[k := WithSub(fields[k].kind, slots[k], result)], more))
  {
    hide Varint, GoodTable, ReadOne, ReadFields, ReadValue, SubTarget, WithSub, Tag;
    var f, payload := fields[k], Varint(|body|) + body;
    SubValue(f.kind, body, slots[k], more, result);
    TaggedRead(fields, k, DELIMITED, payload, slots, more, WithSub(f.kind, slots[k], result));
    assert Delimited(f.no, body) == Tag(f.no, DELIMITED) + payload;
  }

  // ----- whole messages

  /** The merge of the fields from the `j`-th on. */
  function MergeFrom(fields: seq<Field>, t: seq<Value>, slots: seq<Value>, j: nat): (r: seq<Value>)
    requires |t| == |slots| == |fields|
    ensures |r| == |fields|
  {
    seq(|fields|, i requires 0 <= i < |fields| => if i >= j then Merge(fields[i].kind, t[i], slots[i]) else t[i])
  }

  /** Merging into a blank message is the message. */
  lemma {:induction false} MergeIntoBlank(fields: seq<Field>, slots: seq<Value>)
    requires FitsAll(fields, slots)
    ensures MergeAll(fields, Blank(fields), slots) == slots
    decreases slots
  {
    forall i | 0 <= i < |slots| ensures Merge(fields[i].kind, Default(fields[i].kind), slots[i]) == slots[i] {
      assert Fits(fields[i].kind, slots[i]);
      if fields[i].kind.Sub? && slots[i].Rec? {
        MergeIntoBlank(fields[i].kind.fields, slots[i].slots);
      } else if fields[i].kind.Many? {
        assert [] + slots[i].items == slots[i].items;
      }
    }
  }

  lemma {:induction false} FieldRead(fields: seq<Field>, k: nat, v: Value, slots: seq<Value>, more: seq<byte>, n: nat)
    requires GoodTable(fields) && k < |fields| && |slots| == |fields|
    requires Fits(fields[k].kind, v) && |WriteField(fields[k], v)| < P32
    ensures ReadFields(fields, WriteField(fields[k], v) + more, |WriteField(fields[k], v)| + n, slots)
         == ReadFields(fields, more, n, slots[k := Merge(fields[k].kind, slots[k], v)])
    decreases v, 0, 0
  {
    hide Varint, GoodTable, ReadOne, ReadFields, FitsAll;
    var f := fields[k];
    var w := WriteField(f, v);
    match f.kind
    case Sub(fs) =>
      if v.Rec? {
        var body := WriteFrom(fs, v.slots, 0);
        assert GoodField(f) by { TableHas(fields, k); }
        FitsLength(fs, v.slots);
        RoundTripFrom(fs, SlotsOr(slots[k], fs), v.slots, 0, more, 0);
        MergeFromStart(fs, SlotsOr(slots[k], fs), v.slots);
        NothingLeft(fs, more, MergeAll(fs, SlotsOr(slots[k], fs), v.slots));
        SubRead(fields, k, body, slots, more, MergeAll(fs, SlotsOr(slots[k], fs), v.slots));
        OneThenRest(fields, w, more, n, slots, slots[k := Rec(MergeAll(fs, SlotsOr(slots[k], fs), v.slots))]);
      } else {
        assert w + more == more && slots[k := slots[k]] == slots;
      }
    case Many(fs) =>
      ItemsRead(fields, k, v.items, slots, more, n);
      assert slots[k := slots[k]] == slots;
    case _ =>
      if v == Default(f.kind) {
        assert w + more == more && slots[k := slots[k]] == slots;
      } else {
        ScalarRead(fields, k, v, slots, more);
        OneThenRest(fields, w, more, n, slots, slots[k := v]);
      }
  }

  lemma TableHas(fields: seq<Field>, k: nat)
    requires GoodTable(fields) && k < |fields|
    ensures GoodField(fields[k])
  {
  }

  lemma NothingLeft(fields: seq<Field>, s: seq<byte>, slots: seq<Value>)
    requires |slots| == |fields|
    ensures ReadFields(fields, s, 0, slots) == Some(Parsed(slots, s))
  {
  }

  lemma MergeFromStart(fields: seq<Field>, t: seq<Value>, slots: seq<Value>)
    requires FitsAll(fields, slots) && |t| == |fields|
    ensures |slots| == |fields| && MergeFrom(fields, t, slots, 0) == MergeAll(fields, t, slots)
  {
  }

  lemma {:induction false} ItemsRead(fields: seq<Field>, k: nat, items: seq<Value>, slots: seq<Value>, more: seq<byte>, n: nat)
    requires GoodTable(fields) && k < |fields| && |slots| == |fields| && fields[k].kind.Many?
    requires forall i :: 0 <= i < |items| ==> items[i].Rec? && FitsAll(fields[k].kind.fields, items[i].slots)
    requires |WriteItems(fields[k].no, fields[k].kind.fields, items)| < P32
    ensures var w := WriteItems(fields[k].no, fields[k].kind.fields, items);
            ReadFields(fields, w + more, |w| + n, slots) ==
            ReadFields(fields, more, n, WithItems(slots, k, items))
    decreases items, 0, 0
  {
    hide Varint, GoodTable, ReadOne, ReadFields, FitsAll, MergeAll, MergeFrom, Blank, WithItems;
    var no, fs := fields[k].no, fields[k].kind.fields;
    if items == [] {
      NoItems(slots, k);
      assert [] + more == more;
    } else {
      var first, rest := items[0].slots, items[1..];
      var body, w := WriteFrom(fs, first, 0), WriteItems(no, fs, rest);
      assert GoodField(fields[k]) by { TableHas(fields, k); }
      FitsLength(fs, first);
      assert ReadFields(fs, body + (w + more), |body|, Blank(fs)) == Some(Parsed(first, w + more)) by {
        RoundTripFrom(fs, Blank(fs), first, 0, w + more, 0);
        MergeFromStart(fs, Blank(fs), first);
        MergeIntoBlank(fs, first);
        NothingLeft(fs, w + more, first);
      }
      ItemsRead(fields, k, rest, WithItems(slots, k, [Rec(first)]), more, n);
      ItemThenRest(fields, k, body, w, first, rest, slots, more, n);
      assert items == [Rec(first)] + rest;
    }
  }

  /** One item and then the rest, given that each reads back. */
  lemma ItemThenRest(fields: seq<Field>, k: nat, body: seq<byte>, w: seq<byte>, item: seq<Value>, rest: seq<Value>,
                     slots: seq<Value>, more: seq<byte>, n: nat)
    requires GoodTable(fields) && k < |fields| && |slots| == |fields| && fields[k].kind.Many? && |body| < P32
    requires ReadFields(fields[k].kind.fields, body + (w + more), |body|, Blank(fields[k].kind.fields)) == Some(Parsed(item, w + more))
    requires ReadFields(fields, w + more, |w| + n, WithItems(slots, k, [Rec(item)]))
          == ReadFields(fields, more, n, WithItems(WithItems(slots, k, [Rec(item)]), k, rest))
    ensures var all := Delimited(fields[k].no, body) + w;
            ReadFields(fields, all + more, |all| + n, slots) ==
            ReadFields(fields, more, n, WithItems(slots, k, [Rec(item)] + rest))
  {
    hide GoodTable, ReadOne, ReadFields, Delimited, Blank, WithItems;
    ItemRead(fields, k, body, item, slots, w + more, |w| + n);
    assert Delimited(fields[k].no, body) + w + more == Delimited(fields[k].no, body) + (w + more);
    ItemsAdd(slots, k, [Rec(item)], rest);
  }

  /** A repeated field's slot with more items; with none, it is left alone. */
  function WithItems(slots: seq<Value>, k: nat, items: seq<Value>): (r: seq<Value>)
    requires k < |slots|
    ensures |r| == |slots|
  {
    if items == [] then slots else slots[k := List(ItemsOr(slots[k]) + items)]
  }

  lemma NoItems(slots: seq<Value>, k: nat)
    requires k < |slots|
    ensures WithItems(slots, k, []) == slots
  {
  }

  lemma ItemsAdd(slots: seq<Value>, k: nat, a: seq<Value>, b: seq<Value>)
    requires k < |slots|
    ensures WithItems(WithItems(slots, k, a), k, b) == WithItems(slots, k, a + b)
  {
    if a != [] && b != [] {
      assert ItemsOr(slots[k]) + a + b == ItemsOr(slots[k]) + (a + b);
    } else {
      assert a + [] == a && [] + b == b;
    }
  }

  /** One item, given that its body reads back to it. */
  lemma ItemRead(fields: seq<Field>, k: nat, body: seq<byte>, item: seq<Value>, slots: seq<Value>, more: seq<byte>, n: nat)
    requires GoodTable(fields) && k < |fields| && |slots| == |fields| && fields[k].kind.Many?
    requires |body| < P32
    requires ReadFields(fields[k].kind.fields, body + more, |body|, Blank(fields[k].kind.fields)) == Some(Parsed(item, more))
    ensures ReadFields(fields, Delimited(fields[k].no, body) + more, |Delimited(fields[k].no, body)| + n, slots)
         == ReadFields(fields, more, n, WithItems(slots, k, [Rec(item)]))
  {
    hide GoodTable, ReadOne, ReadFields, Delimited, ItemsOr, Blank;
    SubRead(fields, k, body, slots, more, item);
    OneThenRest(fields, Delimited(fields[k].no, body), more, n, slots, WithItems(slots, k, [Rec(item)]));
  }

  lemma {:induction false} RoundTripFrom(fields: seq<Field>, t: seq<Value>, slots: seq<Value>, j: nat, more: seq<byte>, n: nat)
    requires GoodTable(fields) && FitsAll(fields, slots) && |t| == |fields| == |slots| && j <= |fields|
    requires |WriteFrom(fields, slots, j)| < P32
    ensures var w := WriteFrom(fields, slots, j);
            ReadFields(fields, w + more, |w| + n, t) == ReadFields(fields, more, n, MergeFrom(fields, t, slots, j))
    decreases slots, 1, |fields| - j
  {
    hide Varint, GoodTable, ReadOne, ReadFields, Merge;
    if j == |fields| {
      assert [] + more == more && MergeFrom(fields, t, slots, j) == t;
    } else {
      var w, rest := WriteField(fields[j], slots[j]), WriteFrom(fields, slots, j + 1);
      assert Fits(fields[j].kind, slots[j]);
      FieldRead(fields, j, slots[j], t, rest + more, |rest| + n);
      var t' := t[j := Merge(fields[j].kind, t[j], slots[j])];
      RoundTripFrom(fields, t', slots, j + 1, more, n);
      assert w + rest + more == w + (rest + more);
      assert MergeFrom(fields, t', slots, j + 1) == MergeFrom(fields, t, slots, j);
    }
  }

  /** Reading the bytes of a message into any target gives their merge, and stops exactly at
      the message's end whatever follows it. */
  lemma ReadsIntoTarget(fields: seq<Field>, t: seq<Value>, slots: seq<Value>, tail: seq<byte>)
    requires GoodTable(fields) && FitsAll(fields, slots) && |t| == |fields|
    requires |Write(fields, slots)| < P32
    ensures ReadFields(fields, Write(fields, slots) + tail, |Write(fields, slots)|, t)
         == Some(Parsed(MergeAll(fields, t, slots), tail))
  {
    hide ReadFields, WriteFrom, MergeAll, MergeFrom, GoodTable, FitsAll;
    FitsLength(fields, slots);
    RoundTripFrom(fields, t, slots, 0, tail, 0);
    MergeFromStart(fields, t, slots);
    NothingLeft(fields, tail, MergeAll(fields, t, slots));
  }

  lemma FitsLength(fields: seq<Field>, slots: seq<Value>)
    requires FitsAll(fields, slots)
    ensures |slots| == |fields|
  {
  }

  /** Round trip: reading into a new message gives the message back. */
  lemma ReadsBack(fields: seq<Field>, slots: seq<Value>)
    requires GoodTable(fields) && FitsAll(fields, slots) && |Write(fields, slots)| < P32
    ensures ReadFields(fields, Write(fields, slots), |Write(fields, slots)|, Blank(fields)) == Some(Parsed(slots, []))
  {
    hide ReadFields, WriteFrom, MergeAll, GoodTable, FitsAll;
    ReadsIntoTarget(fields, Blank(fields), slots, []);
    MergeIntoBlank(fields, slots);
    assert Write(fields, slots) + [] == Write(fields, slots);
  }

  /** A varint takes as many bytes as the number has base 128 digits. */
  lemma {:induction false} VarintLength(n: nat, digits: nat)
    requires digits > 0 && n < Room(digits) && (digits > 1 ==> Room(digits - 1) <= n)
    ensures |Varint(n)| == digits
  {
    if digits > 1 {
      assert Room(digits - 1) == 128 * Room(digits - 2) && Room(digits - 2) >= 1 by { RoomPositive(digits - 2); }
      VarintLength(n / 128, digits - 1);
    }
  }

  lemma {:induction false} RoomPositive(k: nat)
    ensures Room(k) >= 1
  {
    if k > 0 { RoomPositive(k - 1); }
  }

  /** A negative int32 is written in ten bytes after its tag, as a 64-bit number. */
  lemma NegativeTakesTenBytes(no: nat, n: int)
    requires -0x8000_0000 <= n < 0
    ensures |WriteField(Field(no, I32), Num(n))| == |Tag(no, VARINT)| + 10
  {
    hide Varint, Room;
    TenBytesHold64Bits();
    assert Room(9) <= n + P64 by { NineBytesHold63Bits(); }
    VarintLength(n + P64, 10);
  }

  /** The bytes are the specification's own examples: field 1 holding 150, and field 2 holding
      the text "testing". */
  lemma EncodingExamples(testing: seq<byte>)
    requires testing == [0x74, 0x65, 0x73, 0x74, 0x69, 0x6e, 0x67]
    ensures WriteField(Field(1, I32), Num(150)) == [0x08, 0x96, 0x01]
    ensures WriteField(Field(2, Text), Bytes(testing)) == [0x12, 0x07] + testing
  {
    assert Varint(150) == [0x96] + Varint(1);
    assert Varint(1) == [0x01] && Varint(7) == [0x07] && Varint(8) == [0x08] && Varint(0x12) == [0x12];
  }
}
