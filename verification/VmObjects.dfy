/** VM objects and their byte form: a recursive reader and writer. */
module VmObjects {
  import opened Words
  import opened VmBinary

  datatype VMObject =
    | NoObject
    | StructObject(items: seq<Item>)
    | BytesObject(bytes: Bytes)
    | NumberObject(number: int)
    | StringObject(text: Text)
    | TimestampObject(time: U32)
    | BoolObject(flag: bool)
    | EnumObject(ordinal: U32)
    | OpaqueObject(payload: Bytes)

  /** An entry of a struct object: a key and a value, both objects. */
  datatype Item = Item(key: VMObject, value: VMObject)

  function TypeCode(v: VMObject): Byte {
    match v
    case NoObject => 0
    case StructObject(_) => 1
    case BytesObject(_) => 2
    case NumberObject(_) => 3
    case StringObject(_) => 4
    case TimestampObject(_) => 5
    case BoolObject(_) => 6
    case EnumObject(_) => 7
    case OpaqueObject(_) => 8
  }

  // ----- writing -----

  function EncodeLeaf(v: VMObject): Option<Bytes>
    requires !v.StructObject?
  {
    match v
    case NoObject => Some([])
    case BytesObject(b) => Some(EncodeVarBytes(b))
    case NumberObject(n) => Some(EncodeNumber(n))
    case StringObject(t) => Some(EncodeVarBytes(t))
    case TimestampObject(t) => Some(LE(4, t))
    case BoolObject(b) => Some([if b then 1 else 0])
    case EnumObject(n) => if n < 256 then Some([n]) else None
    case OpaqueObject(b) => Some(EncodeVarBytes(EncodeVarBytes(b)))
  }

  function EncodeObject(v: VMObject): (r: Option<Bytes>)
    ensures r.Some? ==> |r.value| >= 1
    decreases v, 1
  {
    if v.StructObject? then
      var items :- EncodeItems(v.items);
      Some([TypeCode(v)] + (EncodeVarUInt(|v.items|) + items))
    else
      var body :- EncodeLeaf(v);
      Some([TypeCode(v)] + body)
  }

  function EncodeItems(items: seq<Item>): Option<Bytes>
    decreases items, 0
  {
    if items == [] then Some([]) else
      assert items[0].key < items[0] && items[0].value < items[0];
      var k :- EncodeObject(items[0].key);
      var x :- EncodeObject(items[0].value);
      var tail :- EncodeItems(items[1..]);
      Some(k + (x + tail))
  }

  // ----- reading -----

  function DecodeLeaf(code: Byte, s: Bytes): (r: Read<VMObject>)
    ensures r.Got? ==> |r.rest| <= |s|
  {
    match code
    case 0 => Got(NoObject, s)
    case 2 =>
      var (b, rest) :- DecodeVarBytes(s);
      Got(BytesObject(b), rest)
    case 3 =>
      var (n, rest) :- DecodeNumber(s);
      Got(NumberObject(n), rest)
    case 4 =>
      var (t, rest) :- DecodeString(s);
      Got(StringObject(t), rest)
    case 5 =>
      WordSizes();
      var (t, rest) :- ReadWord(4, s);
      Got(TimestampObject(t), rest)
    case 6 =>
      var (b, rest) :- Take(1, s);
      Got(BoolObject(b[0] != 0), rest)
    case 7 =>
      var (b, rest) :- Take(1, s);
      Got(EnumObject(b[0]), rest)
    case 8 =>
      var (b, rest) :- DecodeVarBytes(s);
      Got(OpaqueOf(b), rest)
    case _ => Refused
  }

  /** Only a 34-byte payload with its length in front reads as an object. */
  function OpaqueOf(b: Bytes): VMObject {
    if |b| == 35 && b[0] == 34 then OpaqueObject(b[1..]) else BytesObject(b)
  }

  function DecodeObject(s: Bytes): (r: Read<VMObject>)
    ensures r.Got? ==> |r.rest| < |s|
    decreases |s|, 0
  {
    var (code, rest) :- Take(1, s);
    if code[0] == 1 then
      var (n, rest') :- DecodeVarUInt(rest);
      var (items, rest'') :- DecodeItems(n, rest');
      Got(StructObject(items), rest'')
    else DecodeLeaf(code[0], rest)
  }

  /** Whatever count is claimed, each item takes bytes, so reading ends. */
  function DecodeItems(n: nat, s: Bytes): (r: Read<seq<Item>>)
    ensures r.Got? ==> |r.rest| <= |s| && |r.value| == n
    decreases |s|, 2
  {
    if n == 0 then Got([], s) else
      var (item, rest) :- DecodeItem(s);
      var (items, rest') :- DecodeItems(n - 1, rest);
      Got([item] + items, rest')
  }

  function DecodeItem(s: Bytes): (r: Read<Item>)
    ensures r.Got? ==> |r.rest| < |s|
    decreases |s|, 1
  {
    var (k, rest) :- DecodeObject(s);
    var (x, rest') :- DecodeObject(rest);
    Got(Item(k, x), rest')
  }

  // ----- what comes back -----

  /** The length of the byte string a leaf is written as, if it is one. */
  function LeafLength(v: VMObject): nat {
    match v
    case BytesObject(b) => |b|
    case NumberObject(n) => |VmBytes(n)|
    case StringObject(t) => |t|
    case OpaqueObject(b) => |EncodeVarBytes(b)|
    case _ => 0
  }

  /** No byte string in the object is longer than the limit, no struct has 2^64 entries or more. */
  predicate Within(limit: nat, v: VMObject)
    decreases v, 1
  {
    if v.StructObject? then |v.items| <= LONGEST && ItemsWithin(limit, v.items) else LeafLength(v) <= limit
  }

  predicate ItemsWithin(limit: nat, items: seq<Item>)
    decreases items, 0
  {
    if items == [] then true else
      assert items[0].key < items[0] && items[0].value < items[0];
      Within(limit, items[0].key) && Within(limit, items[0].value) && ItemsWithin(limit, items[1..])
  }

  /** The longest vector a program can hold. */
  const LONGEST: nat := 0xFFFF_FFFF_FFFF_FFFF

  /** The value a reader sees: an object payload of any other length comes back as plain bytes. */
  function Norm(v: VMObject): VMObject
    decreases v, 1
  {
    if v.StructObject? then StructObject(NormItems(v.items))
    else if v.OpaqueObject? && |v.payload| != 34 then BytesObject(EncodeVarBytes(v.payload))
    else v
  }

  function NormItems(items: seq<Item>): (r: seq<Item>)
    ensures |r| == |items|
    decreases items, 0
  {
    if items == [] then [] else
      assert items[0].key < items[0] && items[0].value < items[0];
      [Item(Norm(items[0].key), Norm(items[0].value))] + NormItems(items[1..])
  }

  lemma OpaqueBack(b: Bytes)
    ensures OpaqueOf(EncodeVarBytes(b)) == Norm(OpaqueObject(b))
  {
    if |b| == 34 {
      assert EncodeVarBytes(b) == [34] + b;
      assert EncodeVarBytes(b)[1..] == b;
    } else if |b| < 0xFD {
      assert |EncodeVarBytes(b)| == 1 + |b|;
    } else {
      assert |EncodeVarBytes(b)| > 0xFD;
    }
  }

  lemma LeafBack(v: VMObject, r: Bytes)
    requires !v.StructObject? && EncodeLeaf(v).Some? && LeafLength(v) <= LONGEST
    ensures DecodeLeaf(TypeCode(v), EncodeLeaf(v).value + r) == if LeafLength(v) <= MAX_ARRAY_SIZE then Got(Norm(v), r) else Refused
  {
    match v
    case NoObject => assert [] + r == r;
    case BytesObject(b) => VarBytesBack(b, r);
    case NumberObject(n) => NumberBack(n, r);
    case StringObject(t) => VarBytesBack(t, r);
    case TimestampObject(t) => WordSizes(); WordBack(4, t, r);
    case BoolObject(b) => TakeBack([if b then 1 else 0], r);
    case EnumObject(n) => TakeBack([n], r);
    case OpaqueObject(b) =>
      VarBytesBack(EncodeVarBytes(b), r);
      OpaqueBack(b);
  }

  /** A nested object is read back, whatever follows it, exactly when no byte string in it is over the reader's limit. */
  lemma {:induction false} ObjectBack(v: VMObject, r: Bytes)
    requires EncodeObject(v).Some? && Within(LONGEST, v)
    ensures DecodeObject(EncodeObject(v).value + r) == if Within(MAX_ARRAY_SIZE, v) then Got(Norm(v), r) else Refused
    decreases v, 1
  {
    if v.StructObject? {
      StructBack(v, r);
    } else {
      var body := EncodeLeaf(v).value;
      assert [TypeCode(v)] + body + r == [TypeCode(v)] + (body + r);
      TakeBack([TypeCode(v)], body + r);
      LeafBack(v, r);
    }
  }

  lemma {:induction false} StructBack(v: VMObject, r: Bytes)
    requires v.StructObject? && EncodeObject(v).Some? && Within(LONGEST, v)
    ensures DecodeObject(EncodeObject(v).value + r) == if Within(MAX_ARRAY_SIZE, v) then Got(Norm(v), r) else Refused
    decreases v, 0
  {
    var count, items := EncodeVarUInt(|v.items|), EncodeItems(v.items).value;
    assert [TypeCode(v)] + (count + items) + r == [TypeCode(v)] + (count + (items + r));
    TakeBack([TypeCode(v)], count + (items + r));
    VarUIntBack(|v.items|, items + r);
    ItemsBack(v.items, r);
  }

  lemma {:induction false} ItemsBack(items: seq<Item>, r: Bytes)
    requires EncodeItems(items).Some? && ItemsWithin(LONGEST, items)
    ensures DecodeItems(|items|, EncodeItems(items).value + r)
         == if ItemsWithin(MAX_ARRAY_SIZE, items) then Got(NormItems(items), r) else Refused
    decreases items, 1
  {
    if items == [] {
      assert [] + r == r;
    } else {
      var head, tail := EncodePair(items[0]).value, EncodeItems(items[1..]).value;
      PairWritten(items);
      assert head + tail + r == head + (tail + r);
      ItemBack(items[0], tail + r);
      ItemsBack(items[1..], r);
      ItemsCons(|items|, |items[1..]|, head + tail + r);
    }
  }

  function EncodePair(item: Item): Option<Bytes> {
    var k :- EncodeObject(item.key);
    var x :- EncodeObject(item.value);
    Some(k + x)
  }

  lemma PairWritten(items: seq<Item>)
    requires items != [] && EncodeItems(items).Some?
    ensures EncodePair(items[0]).Some? && EncodeItems(items[1..]).Some?
    ensures EncodeItems(items).value == EncodePair(items[0]).value + EncodeItems(items[1..]).value
  {
    var k, x, tail := EncodeObject(items[0].key).value, EncodeObject(items[0].value).value, EncodeItems(items[1..]).value;
    assert k + (x + tail) == k + x + tail;
  }

  lemma {:induction false} ItemBack(item: Item, r: Bytes)
    requires EncodePair(item).Some? && Within(LONGEST, item.key) && Within(LONGEST, item.value)
    ensures DecodeItem(EncodePair(item).value + r)
         == if Within(MAX_ARRAY_SIZE, item.key) && Within(MAX_ARRAY_SIZE, item.value)
            then Got(Item(Norm(item.key), Norm(item.value)), r) else Refused
    decreases item, 0
  {
    var k, x := EncodeObject(item.key).value, EncodeObject(item.value).value;
    assert k + x + r == k + (x + r);
    ObjectBack(item.key, x + r);
    ObjectBack(item.value, r);
  }

  lemma ItemsCons(n: nat, k: nat, s: Bytes)
    requires n == k + 1
    ensures DecodeItems(n, s) ==
            if DecodeItem(s).Refused? || DecodeItems(k, DecodeItem(s).rest).Refused? then Refused
            else Got([DecodeItem(s).value] + DecodeItems(k, DecodeItem(s).rest).value, DecodeItems(k, DecodeItem(s).rest).rest)
  {
    assert n - 1 == k;
  }

  /** Every object payload is an address: 34 bytes. */
  predicate Plain(v: VMObject)
    decreases v, 1
  {
    if v.StructObject? then PlainItems(v.items) else v.OpaqueObject? ==> |v.payload| == 34
  }

  predicate PlainItems(items: seq<Item>)
    decreases items, 0
  {
    if items == [] then true else
      assert items[0].key < items[0] && items[0].value < items[0];
      Plain(items[0].key) && Plain(items[0].value) && PlainItems(items[1..])
  }

  /** Exactly the objects with 34-byte payloads come back unchanged. */
  lemma {:induction false} PlainIffUnchanged(v: VMObject)
    ensures Norm(v) == v <==> Plain(v)
    decreases v, 1
  {
    if v.StructObject? {
      PlainItemsIff(v.items);
    }
  }

  lemma {:induction false} PlainItemsIff(items: seq<Item>)
    ensures NormItems(items) == items <==> PlainItems(items)
    decreases items, 0
  {
    if items != [] {
      assert items[0].key < items[0] && items[0].value < items[0];
      PlainIffUnchanged(items[0].key);
      PlainIffUnchanged(items[0].value);
      PlainItemsIff(items[1..]);
      var n := NormItems(items);
      assert n[0] == Item(Norm(items[0].key), Norm(items[0].value)) && n[1..] == NormItems(items[1..]);
      assert n == items <==> n[0] == items[0] && n[1..] == items[1..];
    }
  }

  // ----- more input changes nothing -----

  lemma LeafMore(code: Byte, s: Bytes, t: Bytes)
    requires DecodeLeaf(code, s).Got?
    ensures DecodeLeaf(code, s + t) == Got(DecodeLeaf(code, s).value, DecodeLeaf(code, s).rest + t)
  {
    match code
    case 0 =>
    case 2 => VarBytesMore(s, t);
    case 3 => VarBytesMore(s, t);
    case 4 => VarBytesMore(s, t);
    case 5 => TakeMore(4, s, t);
    case 6 => TakeMore(1, s, t);
    case 7 => TakeMore(1, s, t);
    case 8 => VarBytesMore(s, t);
    case _ =>
  }

  lemma {:induction false} ObjectMore(s: Bytes, t: Bytes)
    requires DecodeObject(s).Got?
    ensures DecodeObject(s + t) == Got(DecodeObject(s).value, DecodeObject(s).rest + t)
    decreases |s|, 0
  {
    TakeMore(1, s, t);
    if s[0] == 1 {
      VarUIntMore(s[1..], t);
      ItemsMore(DecodeVarUInt(s[1..]).value, DecodeVarUInt(s[1..]).rest, t);
    } else {
      LeafMore(s[0], s[1..], t);
    }
  }

  lemma {:induction false} ItemsMore(n: nat, s: Bytes, t: Bytes)
    requires DecodeItems(n, s).Got?
    ensures DecodeItems(n, s + t) == Got(DecodeItems(n, s).value, DecodeItems(n, s).rest + t)
    decreases |s|, 2
  {
    if n > 0 {
      ItemMore(s, t);
      ItemsMore(n - 1, DecodeItem(s).rest, t);
    }
  }

  lemma {:induction false} ItemMore(s: Bytes, t: Bytes)
    requires DecodeItem(s).Got?
    ensures DecodeItem(s + t) == Got(DecodeItem(s).value, DecodeItem(s).rest + t)
    decreases |s|, 1
  {
    ObjectMore(s, t);
    ObjectMore(DecodeObject(s).rest, t);
  }

  function FromBytes(s: Bytes): Option<VMObject> {
    var r := DecodeObject(s);
    if r.Got? && r.rest == [] then Some(r.value) else None
  }

  /** The bytes of an object within the limit hold that object, and with anything behind them none. */
  lemma BytesHoldObject(v: VMObject, r: Bytes)
    requires EncodeObject(v).Some? && Within(MAX_ARRAY_SIZE, v) && Within(LONGEST, v)
    ensures FromBytes(EncodeObject(v).value + r) == if r == [] then Some(Norm(v)) else None
  {
    ObjectBack(v, r);
  }

  /** A byte string that holds an object has no strict prefix that holds one. */
  lemma ObjectPrefixRefused(s: Bytes, k: nat)
    requires FromBytes(s).Some? && k < |s|
    ensures FromBytes(s[..k]).None?
  {
    assert s[..k] + s[k..] == s;
    if DecodeObject(s[..k]).Got? {
      ObjectMore(s[..k], s[k..]);
    }
  }
}
