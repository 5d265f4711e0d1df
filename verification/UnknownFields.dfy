/** Fields a reader's table does not have, of every wire type and nested to any depth, are passed
    over wherever they stand between a message's own fields. */
module UnknownFields {
  import opened Orders
  import opened Wire
  import opened WireLaws

  /** A field's payload by its wire type. A group holds fields and ends with a tag of its own. */
  datatype Payload =
    | Number(n: nat)
    | Eight(bytes: seq<byte>)
    | Block(bytes: seq<byte>)
    | Group(items: seq<Item>, endNo: nat)
    | Four(bytes: seq<byte>)

  datatype Item = Item(no: nat, payload: Payload)

  function WireType(p: Payload): nat {
    match p
    case Number(_) => 0
    case Eight(_) => 1
    case Block(_) => 2
    case Group(_, _) => 3
    case Four(_) => 5
  }

  predicate TagNo(no: nat) { 0 < no < 0x2000_0000 }

  predicate Proper(p: Payload)
    decreases p
  {
    match p
    case Number(n) => n < P64
    case Eight(bytes) => |bytes| == 8
    case Block(bytes) => |bytes| < P32
    case Group(items, endNo) => TagNo(endNo) && forall i :: 0 <= i < |items| ==> TagNo(items[i].no) && Proper(items[i].payload)
    case Four(bytes) => |bytes| == 4
  }

  function PayloadBytes(p: Payload): seq<byte>
    decreases p, 0
  {
    match p
    case Number(n) => Varint(n)
    case Eight(bytes) => bytes
    case Block(bytes) => Varint(|bytes|) + bytes
    case Group(items, endNo) => ItemsBytes(items) + Varint(endNo * 8 + 4)
    case Four(bytes) => bytes
  }

  function ItemBytes(item: Item): seq<byte>
    decreases item, 1
  {
    Varint(item.no * 8 + WireType(item.payload)) + PayloadBytes(item.payload)
  }

  function ItemsBytes(items: seq<Item>): seq<byte>
    decreases items, 0
  {
    if items == [] then [] else ItemBytes(items[0]) + ItemsBytes(items[1..])
  }

  lemma ReadsKey(no: nat, wireType: nat, tail: seq<byte>)
    requires TagNo(no) && wireType <= 5
    ensures ReadU32(Varint(no * 8 + wireType) + tail) == Some(Parsed(no * 8 + wireType, tail))
    ensures (no * 8 + wireType) / 8 == no && (no * 8 + wireType) % 8 == wireType
  {
    hide Varint, ReadVarint, ReadU32;
    ReadsVarint(no * 8 + wireType, tail);
  }

  /** Skipping by the wire type passes exactly the payload. */
  lemma {:induction false} SkipsPayload(p: Payload, tail: seq<byte>)
    requires Proper(p)
    ensures Skip(WireType(p), PayloadBytes(p) + tail) == Some(Parsed((), tail))
    decreases p, 0
  {
    hide Varint, ReadVarint, ReadU32, SkipGroup;
    match p
    case Number(n) => ReadsVarint(n, tail);
    case Block(bytes) =>
      ReadsVarint(|bytes|, bytes + tail);
      assert Varint(|bytes|) + bytes + tail == Varint(|bytes|) + (bytes + tail);
      assert (bytes + tail)[|bytes|..] == tail;
    case Group(items, endNo) => SkipsGroup(items, endNo, tail);
    case Eight(bytes) => assert (bytes + tail)[8..] == tail;
    case Four(bytes) => assert (bytes + tail)[4..] == tail;
  }

  lemma {:induction false} SkipsGroup(items: seq<Item>, endNo: nat, tail: seq<byte>)
    requires TagNo(endNo) && forall i :: 0 <= i < |items| ==> TagNo(items[i].no) && Proper(items[i].payload)
    ensures SkipGroup(ItemsBytes(items) + Varint(endNo * 8 + 4) + tail) == Some(Parsed((), tail))
    decreases items, 1
  {
    hide Varint, ReadVarint, ReadU32, Skip, PayloadBytes;
    var end := Varint(endNo * 8 + 4);
    if items == [] {
      ReadsKey(endNo, 4, tail);
      assert [] + end + tail == end + tail;
    } else {
      var item, rest := items[0], ItemsBytes(items[1..]) + end + tail;
      var key := Varint(item.no * 8 + WireType(item.payload));
      assert ItemsBytes(items) + end + tail == key + (PayloadBytes(item.payload) + rest);
      ReadsKey(item.no, WireType(item.payload), PayloadBytes(item.payload) + rest);
      SkipsItem(item, rest);
      SkipsGroup(items[1..], endNo, tail);
    }
  }

  lemma {:induction false} SkipsItem(item: Item, tail: seq<byte>)
    requires Proper(item.payload)
    ensures Skip(WireType(item.payload), PayloadBytes(item.payload) + tail) == Some(Parsed((), tail))
    decreases item, 0
  {
    hide Skip, PayloadBytes;
    SkipsPayload(item.payload, tail);
  }

  ghost predicate Unknown(fields: seq<Field>, items: seq<Item>) {
    forall i :: 0 <= i < |items| ==>
      && TagNo(items[i].no) && Proper(items[i].payload)
      && forall k :: 0 <= k < |fields| ==> fields[k].no != items[i].no
  }

  /** One unknown field leaves the message as it is. */
  lemma ReadsUnknown(fields: seq<Field>, item: Item, more: seq<byte>, slots: seq<Value>)
    requires |slots| == |fields| && Unknown(fields, [item])
    ensures ItemBytes(item) != []
    ensures ReadOne(fields, ItemBytes(item) + more, slots) == Some(Parsed(slots, more))
  {
    hide Varint, ReadVarint, ReadU32, Skip, PayloadBytes;
    assert [item][0] == item;
    var key := Varint(item.no * 8 + WireType(item.payload));
    VarintNotEmpty(item.no * 8 + WireType(item.payload));
    assert ItemBytes(item) + more == key + (PayloadBytes(item.payload) + more);
    ReadsKey(item.no, WireType(item.payload), PayloadBytes(item.payload) + more);
    SkipsPayload(item.payload, more);
    assert IndexOf(fields, item.no) == |fields|;
  }

  lemma {:induction false} PassesUnknown(fields: seq<Field>, items: seq<Item>, more: seq<byte>, n: nat, slots: seq<Value>)
    requires |slots| == |fields| && Unknown(fields, items)
    ensures ReadFields(fields, ItemsBytes(items) + more, |ItemsBytes(items)| + n, slots) == ReadFields(fields, more, n, slots)
    decreases |items|
  {
    hide ReadOne, ReadFields, ItemBytes;
    if items == [] {
      assert [] + more == more;
    } else {
      var item, rest := items[0], ItemsBytes(items[1..]);
      assert Unknown(fields, [item]) && Unknown(fields, items[1..]);
      assert ItemsBytes(items) + more == ItemBytes(item) + (rest + more);
      ReadsUnknown(fields, item, rest + more, slots);
      OneThenRest(fields, ItemBytes(item), rest + more, |rest| + n, slots, slots);
      PassesUnknown(fields, items[1..], more, n, slots);
    }
  }

  /** Unknown fields before, between and after the fields of a message, written in two parts,
      change nothing of what is read, nor where reading stops. */
  lemma ReadsAroundUnknown(fields: seq<Field>, t: seq<Value>, a: seq<Value>, b: seq<Value>,
                           before: seq<Item>, between: seq<Item>, after: seq<Item>, tail: seq<byte>)
    requires GoodTable(fields) && FitsAll(fields, a) && FitsAll(fields, b) && |t| == |fields|
    requires Unknown(fields, before) && Unknown(fields, between) && Unknown(fields, after)
    requires |Write(fields, a)| < P32 && |Write(fields, b)| < P32
    ensures var w := ItemsBytes(before) + Write(fields, a) + ItemsBytes(between) + Write(fields, b) + ItemsBytes(after);
            ReadFields(fields, w + tail, |w|, t) ==
            Some(Parsed(MergeAll(fields, MergeAll(fields, t, a), b), tail))
  {
    hide ReadFields, Write, MergeAll, GoodTable, FitsAll, Unknown, ItemsBytes;
    var u, v, w := ItemsBytes(before), ItemsBytes(between), ItemsBytes(after);
    var x, y := Write(fields, a), Write(fields, b);
    var s4 := w + tail;
    var s3 := y + s4;
    var s2 := v + s3;
    var s1 := x + s2;
    assert u + x + v + y + w + tail == u + s1;
    PassesUnknown(fields, before, s1, |x| + |v| + |y| + |w|, t);
    PartRead(fields, t, a, s2, |v| + |y| + |w|);
    PassesUnknown(fields, between, s3, |y| + |w|, MergeAll(fields, t, a));
    PartRead(fields, MergeAll(fields, t, a), b, s4, |w|);
    PassesUnknown(fields, after, tail, 0, MergeAll(fields, MergeAll(fields, t, a), b));
    NothingLeft(fields, tail, MergeAll(fields, MergeAll(fields, t, a), b));
  }

  lemma PartRead(fields: seq<Field>, t: seq<Value>, slots: seq<Value>, more: seq<byte>, n: nat)
    requires GoodTable(fields) && FitsAll(fields, slots) && |t| == |fields| && |Write(fields, slots)| < P32
    ensures ReadFields(fields, Write(fields, slots) + more, |Write(fields, slots)| + n, t)
         == ReadFields(fields, more, n, MergeAll(fields, t, slots))
  {
    hide ReadFields, WriteFrom, MergeAll, MergeFrom, GoodTable, FitsAll;
    FitsLength(fields, slots);
    RoundTripFrom(fields, t, slots, 0, more, n);
    MergeFromStart(fields, t, slots);
  }
}
