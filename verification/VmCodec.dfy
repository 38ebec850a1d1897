/** The VM's writer and reader, and the object codec as it runs over them. */
module VmCodec {
  import opened Words
  import opened VmBinary
  import opened VmObjects

  class BinaryWriter {
    var buffer: Bytes

    constructor ()
      ensures buffer == []
    {
      buffer := [];
    }

    method Write(data: Bytes)
      modifies this
      ensures buffer == old(buffer) + data
    {
      buffer := buffer + data;
    }

    method WriteVarUInt(n: nat)
      modifies this
      ensures buffer == old(buffer) + EncodeVarUInt(n)
    {
      ghost var was := buffer;
      if n < 0xFD {
        Write([n]);
      } else if n <= 0xFFFF {
        Write([0xFD]);
        Write(LE(2, n));
        assert was + [0xFD] + LE(2, n) == was + ([0xFD] + LE(2, n));
      } else if n <= 0xFFFF_FFFF {
        Write([0xFE]);
        Write(LE(4, n));
        assert was + [0xFE] + LE(4, n) == was + ([0xFE] + LE(4, n));
      } else {
        Write([0xFF]);
        Write(LE(8, n));
        assert was + [0xFF] + LE(8, n) == was + ([0xFF] + LE(8, n));
      }
    }

    method WriteVarBytes(data: Bytes)
      modifies this
      ensures buffer == old(buffer) + EncodeVarBytes(data)
    {
      ghost var was := buffer;
      WriteVarUInt(|data|);
      Write(data);
      assert was + EncodeVarUInt(|data|) + data == was + (EncodeVarUInt(|data|) + data);
    }

    method WriteNumber(value: int)
      modifies this
      ensures buffer == old(buffer) + EncodeNumber(value)
    {
      var raw := BigIntToVmBytes(value);
      WriteVarBytes(raw);
    }
  }

  class BinaryReader {
    const data: Bytes
    var offset: nat

    ghost predicate Valid()
      reads this
    {
      offset <= |data|
    }

    function Rest(): Bytes
      requires Valid()
      reads this
    {
      data[offset..]
    }

    constructor (data: Bytes)
      ensures Valid() && Rest() == data
    {
      this.data := data;
      offset := 0;
    }

    method Read(count: nat) returns (r: Option<Bytes>)
      requires Valid()
      modifies this`offset
      ensures Valid() && Follows(r, Take(count, old(Rest())), Rest())
    {
      if count > |data| - offset {
        return None;
      }
      var start := offset;
      ghost var s := Rest();
      offset := offset + count;
      assert data[start..start + count] == s[..count] && Rest() == s[count..];
      return Some(data[start..start + count]);
    }

    method ReadByte() returns (r: Option<Byte>)
      requires Valid()
      modifies this`offset
      ensures Valid()
      ensures var t := Take(1, old(Rest()));
              if t.Got? then r == Some(t.value[0]) && Rest() == t.rest else r.None?
    {
      var raw :- Read(1);
      return Some(raw[0]);
    }

    method ReadUInt(w: nat) returns (r: Option<int>)
      requires Valid()
      modifies this`offset
      ensures Valid() && Follows(r, ReadWord(w, old(Rest())), Rest())
    {
      var raw :- Read(w);
      return Some(Unsigned(raw));
    }

    method ReadVarUInt() returns (r: Option<U64>)
      requires Valid()
      modifies this`offset
      ensures Valid() && Follows(r, DecodeVarUInt(old(Rest())), Rest())
    {
      WordSizes();
      var marker :- ReadByte();
      if VarWidth(marker) == 0 {
        return Some(marker);
      }
      var n :- ReadUInt(VarWidth(marker));
      return Some(n);
    }

    method ReadVarBytes() returns (r: Option<Bytes>)
      requires Valid()
      modifies this`offset
      ensures Valid() && Follows(r, DecodeVarBytes(old(Rest())), Rest())
    {
      var size :- ReadVarUInt();
      if size > MAX_ARRAY_SIZE {
        return None;
      }
      r := Read(size);
    }

    method ReadString() returns (r: Option<Text>)
      requires Valid()
      modifies this`offset
      ensures Valid() && Follows(r, DecodeString(old(Rest())), Rest())
    {
      var raw :- ReadVarBytes();
      if !ValidUtf8(raw) {
        return None;
      }
      return Some(raw);
    }
  }

  // ----- objects -----

  method WriteLeaf(w: BinaryWriter, v: VMObject) returns (ok: bool)
    requires !v.StructObject?
    modifies w
    ensures ok == EncodeLeaf(v).Some?
    ensures ok ==> w.buffer == old(w.buffer) + EncodeLeaf(v).value
  {
    ghost var was := w.buffer;
    match v {
      case NoObject => assert was + [] == was;
      case BytesObject(b) => w.WriteVarBytes(b);
      case NumberObject(n) => w.WriteNumber(n);
      case StringObject(t) => w.WriteVarBytes(t);
      case TimestampObject(t) => w.Write(LE(4, t));
      case BoolObject(b) => w.Write([if b then 1 else 0]);
      case EnumObject(n) =>
        if n >= 256 {
          return false;
        }
        w.Write([n]);
      case OpaqueObject(b) =>
        var inner := new BinaryWriter();
        inner.WriteVarBytes(b);
        assert inner.buffer == EncodeVarBytes(b);
        w.WriteVarBytes(inner.buffer);
    }
    return true;
  }

  method WriteObject(w: BinaryWriter, v: VMObject) returns (ok: bool)
    modifies w
    ensures ok == EncodeObject(v).Some?
    ensures ok ==> w.buffer == old(w.buffer) + EncodeObject(v).value
    decreases v, 1
  {
    ghost var was := w.buffer;
    w.Write([TypeCode(v)]);
    if v.StructObject? {
      w.WriteVarUInt(|v.items|);
      ok := WriteItems(w, v.items);
      if ok {
        Appended(was, [TypeCode(v)], EncodeVarUInt(|v.items|), EncodeItems(v.items).value);
      }
    } else {
      ok := WriteLeaf(w, v);
      if ok {
        assert was + [TypeCode(v)] + EncodeLeaf(v).value == was + ([TypeCode(v)] + EncodeLeaf(v).value);
      }
    }
  }

  lemma Appended(was: Bytes, a: Bytes, b: Bytes, c: Bytes)
    ensures was + a + b + c == was + (a + (b + c))
  {
  }

  method WriteItems(w: BinaryWriter, items: seq<Item>) returns (ok: bool)
    modifies w
    ensures ok == EncodeItems(items).Some?
    ensures ok ==> w.buffer == old(w.buffer) + EncodeItems(items).value
    decreases items, 0
  {
    ghost var was := w.buffer;
    ghost var done: Bytes := [];
    ok := true;
    assert items[0..] == items && was + [] == was;
    assert EncodeItems(items).Some? ==> done + EncodeItems(items).value == EncodeItems(items).value;
    for i := 0 to |items|
      invariant w.buffer == was + done
      invariant EncodeItems(items) == Owing(done, EncodeItems(items[i..]))
    {
      assert items[i..][0] == items[i] && items[i..][1..] == items[i + 1..];
      assert items[i].key < items[i] && items[i].value < items[i];
      ItemStep(done, items[i..]);
      ok := WriteObject(w, items[i].key);
      if !ok {
        return;
      }
      ok := WriteObject(w, items[i].value);
      if !ok {
        return;
      }
      Appended(was, done, EncodeObject(items[i].key).value, EncodeObject(items[i].value).value);
      done := done + (EncodeObject(items[i].key).value + EncodeObject(items[i].value).value);
    }
    assert items[|items|..] == [] && done + [] == done;
  }

  lemma ItemStep(done: Bytes, items: seq<Item>)
    requires items != []
    ensures var k, x := EncodeObject(items[0].key), EncodeObject(items[0].value);
            Owing(done, EncodeItems(items)) ==
            if k.None? || x.None? then None else Owing(done + (k.value + x.value), EncodeItems(items[1..]))
  {
    var k, x, tail := EncodeObject(items[0].key), EncodeObject(items[0].value), EncodeItems(items[1..]);
    if k.Some? && x.Some? && tail.Some? {
      Rejoined(done, k.value, x.value, tail.value);
    }
  }

  lemma Rejoined(a: Bytes, b: Bytes, c: Bytes, d: Bytes)
    ensures a + (b + (c + d)) == a + (b + c) + d
  {
  }

  method ReadLeaf(r: BinaryReader, code: Byte) returns (v: Option<VMObject>)
    requires r.Valid()
    modifies r`offset
    ensures r.Valid() && Follows(v, DecodeLeaf(code, old(r.Rest())), r.Rest())
  {
    WordSizes();
    match code {
      case 0 =>
        return Some(NoObject);
      case 2 =>
        var b :- r.ReadVarBytes();
        return Some(BytesObject(b));
      case 3 =>
        var b :- r.ReadVarBytes();
        return Some(NumberObject(Signed(b)));
      case 4 =>
        var t :- r.ReadString();
        return Some(StringObject(t));
      case 5 =>
        var t :- r.ReadUInt(4);
        return Some(TimestampObject(t));
      case 6 =>
        var b :- r.ReadByte();
        return Some(BoolObject(b != 0));
      case 7 =>
        var b :- r.ReadByte();
        return Some(EnumObject(b));
      case 8 =>
        var b :- r.ReadVarBytes();
        return Some(if |b| == 35 && b[0] == 34 then OpaqueObject(b[1..]) else BytesObject(b));
      case _ =>
        return None;
    }
  }

  method ReadObject(r: BinaryReader) returns (v: Option<VMObject>)
    requires r.Valid()
    modifies r`offset
    ensures r.Valid() && Follows(v, DecodeObject(old(r.Rest())), r.Rest())
    decreases |r.data| - r.offset, 0
  {
    var code :- r.ReadByte();
    if code == 1 {
      var count :- r.ReadVarUInt();
      var items :- ReadItems(r, count);
      return Some(StructObject(items));
    }
    v := ReadLeaf(r, code);
  }

  method ReadItems(r: BinaryReader, count: nat) returns (v: Option<seq<Item>>)
    requires r.Valid()
    modifies r`offset
    ensures r.Valid() && Follows(v, DecodeItems(count, old(r.Rest())), r.Rest())
    decreases |r.data| - r.offset, 2
  {
    ghost var s := r.Rest();
    var items := [];
    AheadStart(DecodeItems(count, s));
    var left := count;
    while left > 0
      invariant r.Valid() && r.offset >= old(r.offset)
      invariant DecodeItems(count, s) == Ahead(items, DecodeItems(left, r.Rest()))
    {
      ItemsStep(left, items, r.Rest());
      var item := ReadItem(r);
      if item.None? {
        return None;
      }
      items := items + [item.value];
      left := left - 1;
    }
    assert items + [] == items;
    return Some(items);
  }

  method ReadItem(r: BinaryReader) returns (v: Option<Item>)
    requires r.Valid()
    modifies r`offset
    ensures r.Valid() && Follows(v, DecodeItem(old(r.Rest())), r.Rest())
    decreases |r.data| - r.offset, 1
  {
    var k :- ReadObject(r);
    var x :- ReadObject(r);
    return Some(Item(k, x));
  }

  lemma ItemsStep(n: nat, done: seq<Item>, s: Bytes)
    requires n > 0
    ensures var item := DecodeItem(s);
            Ahead(done, DecodeItems(n, s)) ==
            if item.Refused? then Refused else Ahead(done + [item.value], DecodeItems(n - 1, item.rest))
  {
    var item := DecodeItem(s);
    if item.Got? {
      AheadStep(done, item.value, DecodeItems(n - 1, item.rest));
    }
  }
}
