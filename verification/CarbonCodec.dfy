/**
  The codec as the source runs it: a writer that appends to its buffer and a reader that advances an
  offset, each method proved against the functions on bytes.
 */
module CarbonCodec {
  import opened Words
  import opened CarbonWire
  import opened CarbonSchema
  import opened CarbonValues

  class CarbonWriter {
    var buffer: Bytes

    constructor ()
      ensures buffer == []
    {
      buffer := [];
    }

    method Write(data: Bytes)
      modifies this
      ensures buffer == old(buffer) + data
    {
      buffer := buffer + data;
    }

    method WriteLength(n: nat) returns (ok: bool)
      modifies this
      ensures Wrote(ok, EncodeLen(n), old(buffer), buffer)
    {
      if n >= 0x1_0000_0000 {
        return false;
      }
      Write(LE(4, n));
      return true;
    }

    method WriteBigInt(value: int) returns (ok: bool)
      modifies this
      ensures Wrote(ok, EncodeBigInt(value), old(buffer), buffer)
    {
      if value == 0 {
        Write([0]);
        return true;
      }
      if !FitsWord(value) {
        return false;
      }
      var word := LE(WORD_BYTES, value);
      var fill := if word[31] >= 0x80 then 0xFF else 0x00;
      var len := |word|;
      while len > 0 && word[len - 1] == fill
        invariant 0 <= len <= |word|
        invariant TrimLen(word, fill, |word|) == TrimLen(word, fill, len)
      {
        len := len - 1;
      }
      var header: Byte := len;
      if fill == 0xFF {
        header := header + 0x80;
      }
      Write([header]);
      Write(word[..len]);
      return true;
    }

    method WriteStringZ(value: Text) returns (ok: bool)
      modifies this
      ensures Wrote(ok, EncodeZ(value), old(buffer), buffer)
    {
      if 0 in value {
        return false;
      }
      Write(value);
      Write([0]);
      return true;
    }

    method WriteSmallString(value: Text) returns (ok: bool)
      modifies this
      ensures Wrote(ok, EncodeSmall(value), old(buffer), buffer)
    {
      if |value| > 255 {
        return false;
      }
      Write([|value|]);
      Write(value);
      return true;
    }

    method WriteByteArray(data: Bytes) returns (ok: bool)
      modifies this
      ensures Wrote(ok, EncodeBlob(data), old(buffer), buffer)
    {
      ok := WriteLength(|data|);
      if ok {
        Write(data);
      }
    }

    method WriteByteArrays(values: seq<Bytes>) returns (ok: bool)
      modifies this
      ensures Wrote(ok, EncodeArray(values, EncodeBlob), old(buffer), buffer)
    {
      ok := WriteLength(|values|);
      if !ok {
        return;
      }
      for i := 0 to |values|
        invariant EncodeLen(|values|).Some?
        invariant Wrote(true, Join(EncodeLen(|values|), EncodeAll(values[..i], EncodeBlob)), old(buffer), buffer)
      {
        AllSnoc(values, EncodeBlob, i);
        ok := WriteByteArray(values[i]);
        if !ok {
          AllStops(values, EncodeBlob, i);
          return false;
        }
      }
      assert values[..|values|] == values;
      return true;
    }

    method WriteBigIntArray(values: seq<int>) returns (ok: bool)
      modifies this
      ensures Wrote(ok, EncodeArray(values, EncodeBigInt), old(buffer), buffer)
    {
      ok := WriteLength(|values|);
      if !ok {
        return;
      }
      for i := 0 to |values|
        invariant EncodeLen(|values|).Some?
        invariant Wrote(true, Join(EncodeLen(|values|), EncodeAll(values[..i], EncodeBigInt)), old(buffer), buffer)
      {
        ok := WriteNextBigInt(values, i, EncodeLen(|values|), old(buffer));
        if !ok {
          return false;
        }
      }
      assert values[..|values|] == values;
      return true;
    }

    /** One round of the loop: the prefix written grows by one item, or the whole array is refused. */
    method WriteNextBigInt(values: seq<int>, i: nat, ghost len: Option<Bytes>, ghost start: Bytes) returns (ok: bool)
      requires i < |values| && len.Some? && Wrote(true, Join(len, EncodeAll(values[..i], EncodeBigInt)), start, buffer)
      modifies this
      ensures !ok ==> EncodeAll(values, EncodeBigInt).None?
      ensures ok ==> Wrote(true, Join(len, EncodeAll(values[..i + 1], EncodeBigInt)), start, buffer)
    {
      AllSnoc(values, EncodeBigInt, i);
      ok := WriteBigInt(values[i]);
      if !ok {
        AllStops(values, EncodeBigInt, i);
      }
    }

    method WriteIntArray(w: IntWidth, values: seq<int>) returns (ok: bool)
      modifies this
      ensures Wrote(ok, EncodeArray(values, EncodeInt(w)), old(buffer), buffer)
    {
      ok := WriteLength(|values|);
      if !ok {
        return;
      }
      for i := 0 to |values|
        invariant EncodeLen(|values|).Some?
        invariant Wrote(true, Join(EncodeLen(|values|), EncodeAll(values[..i], EncodeInt(w))), old(buffer), buffer)
      {
        AllSnoc(values, EncodeInt(w), i);
        Write(LE(w, values[i]));
      }
      assert values[..|values|] == values;
      return true;
    }

    method WriteFixedArray(values: seq<Bytes>) returns (ok: bool)
      modifies this
      ensures Wrote(ok, EncodeArray(values, EncodeRaw), old(buffer), buffer)
    {
      ok := WriteLength(|values|);
      if !ok {
        return;
      }
      for i := 0 to |values|
        invariant EncodeLen(|values|).Some?
        invariant Wrote(true, Join(EncodeLen(|values|), EncodeAll(values[..i], EncodeRaw)), old(buffer), buffer)
      {
        AllSnoc(values, EncodeRaw, i);
        Write(values[i]);
      }
      assert values[..|values|] == values;
      return true;
    }

    method WriteStringZArray(values: seq<Text>) returns (ok: bool)
      modifies this
      ensures Wrote(ok, EncodeArray(values, EncodeZ), old(buffer), buffer)
    {
      ok := WriteLength(|values|);
      if !ok {
        return;
      }
      for i := 0 to |values|
        invariant EncodeLen(|values|).Some?
        invariant Wrote(true, Join(EncodeLen(|values|), EncodeAll(values[..i], EncodeZ)), old(buffer), buffer)
      {
        AllSnoc(values, EncodeZ, i);
        ok := WriteStringZ(values[i]);
        if !ok {
          AllStops(values, EncodeZ, i);
          return false;
        }
      }
      assert values[..|values|] == values;
      return true;
    }
  }

  class CarbonReader {
    const data: Bytes
    var offset: nat

    ghost predicate Valid()
      reads this
    {
      offset <= |data|
    }

    function Rest(): Bytes
      requires Valid()
      reads this
    {
      data[offset..]
    }

    constructor (data: Bytes)
      ensures Valid() && Rest() == data && this.data == data
    {
      this.data := data;
      offset := 0;
    }

    method Read(count: nat) returns (r: Option<Bytes>)
      requires Valid()
      modifies this`offset
      ensures Valid() && Follows(r, Take(count, old(Rest())), Rest())
    {
      if count > |data| - offset {
        return None;
      }
      var start := offset;
      ghost var s := Rest();
      offset := offset + count;
      assert data[start..start + count] == s[..count] && Rest() == s[count..];
      return Some(data[start..start + count]);
    }

    method ReadInt(w: nat) returns (r: Option<int>)
      requires Valid()
      modifies this`offset
      ensures Valid() && Follows(r, DecodeIntAt(w, old(Rest())), Rest())
    {
      var raw :- Read(w);
      return Some(Signed(raw));
    }

    method ReadLengthFor(w: nat) returns (r: Option<nat>)
      requires Valid()
      modifies this`offset
      ensures Valid() && Follows(r, DecodeLenFor(w, old(Rest())), Rest())
    {
      if w == 0 {
        return None;
      }
      var n :- ReadInt(4);
      if n < 0 || n * w > |data| - offset {
        return None;
      }
      return Some(n);
    }

    method ReadBigIntWithHeader(header: Byte) returns (r: Option<int>)
      requires Valid()
      modifies this`offset
      ensures Valid() && Follows(r, DecodeBigIntWith(header, old(Rest())), Rest())
    {
      if header == 0 {
        return Some(0);
      }
      var len := header % 64;
      if (header / 64) % 2 == 1 || len > WORD_BYTES {
        return None;
      }
      var raw :- Read(len);
      var word := raw + Fill(WORD_BYTES - len, if header >= 0x80 then 0xFF else 0x00);
      if (word[31] >= 0x80) != (header >= 0x80) {
        return None;
      }
      return Some(Signed(word));
    }

    method ReadBigInt() returns (r: Option<int>)
      requires Valid()
      modifies this`offset
      ensures Valid() && Follows(r, DecodeBigInt(old(Rest())), Rest())
    {
      var h :- Read(1);
      r := ReadBigIntWithHeader(h[0]);
    }

    method ReadStringZ() returns (r: Option<Text>)
      requires Valid()
      modifies this`offset
      ensures Valid() && Follows(r, DecodeZ(old(Rest())), Rest())
    {
      var start := offset;
      ghost var s := Rest();
      while offset < |data| && data[offset] != 0
        invariant start <= offset <= |data|
        invariant 0 !in s[..offset - start]
      {
        assert s[..offset + 1 - start] == s[..offset - start] + [data[offset]];
        offset := offset + 1;
      }
      ghost var n := offset - start;
      ZeroFound(s, n);
      if offset >= |data| {
        return None;
      }
      var raw := data[start..offset];
      assert raw == s[..n];
      offset := offset + 1;
      if !ValidUtf8(raw) {
        return None;
      }
      return Some(raw);
    }

    method ReadSmallString() returns (r: Option<Text>)
      requires Valid()
      modifies this`offset
      ensures Valid() && Follows(r, DecodeSmall(old(Rest())), Rest())
    {
      var n :- Read(1);
      var raw :- Read(n[0]);
      if !ValidUtf8(raw) {
        return None;
      }
      return Some(raw);
    }

    method ReadByteArray() returns (r: Option<Bytes>)
      requires Valid()
      modifies this`offset
      ensures Valid() && Follows(r, DecodeBlob(old(Rest())), Rest())
    {
      var n :- ReadLengthFor(1);
      r := Read(n);
    }

    method ReadEachByteArray(n: nat) returns (r: Option<seq<Bytes>>)
      requires Valid()
      modifies this`offset
      ensures Valid() && Follows(r, DecodeAll(n, DecodeBlob, old(Rest())), Rest())
      decreases n
    {
      if n == 0 {
        return Some([]);
      }
      var x :- ReadByteArray();
      var xs :- ReadEachByteArray(n - 1);
      return Some([x] + xs);
    }

    method ReadByteArrays() returns (r: Option<seq<Bytes>>)
      requires Valid()
      modifies this`offset
      ensures Valid() && Follows(r, DecodeArray(4, DecodeBlob, old(Rest())), Rest())
    {
      var n :- ReadLengthFor(4);
      r := ReadEachByteArray(n);
    }

    method ReadEachBigInt(n: nat) returns (r: Option<seq<int>>)
      requires Valid()
      modifies this`offset
      ensures Valid() && Follows(r, DecodeAll(n, DecodeBigInt, old(Rest())), Rest())
      decreases n
    {
      if n == 0 {
        return Some([]);
      }
      var x :- ReadBigInt();
      var xs :- ReadEachBigInt(n - 1);
      return Some([x] + xs);
    }

    method ReadBigIntArray() returns (r: Option<seq<int>>)
      requires Valid()
      modifies this`offset
      ensures Valid() && Follows(r, DecodeArray(1, DecodeBigInt, old(Rest())), Rest())
    {
      var n :- ReadLengthFor(1);
      r := ReadEachBigInt(n);
    }

    method ReadEachInt(w: IntWidth, n: nat) returns (r: Option<seq<int>>)
      requires Valid()
      modifies this`offset
      ensures Valid() && Follows(r, DecodeAll(n, DecodeInt(w), old(Rest())), Rest())
      decreases n
    {
      if n == 0 {
        return Some([]);
      }
      var x :- ReadInt(w);
      var xs :- ReadEachInt(w, n - 1);
      return Some([x] + xs);
    }

    method ReadIntArray(w: IntWidth) returns (r: Option<seq<int>>)
      requires Valid()
      modifies this`offset
      ensures Valid() && Follows(r, DecodeArray(w, DecodeInt(w), old(Rest())), Rest())
    {
      var n :- ReadLengthFor(w);
      r := ReadEachInt(w, n);
    }

    method ReadEachFixed(size: FixedSize, n: nat) returns (r: Option<seq<Bytes>>)
      requires Valid()
      modifies this`offset
      ensures Valid() && Follows(r, DecodeAll(n, DecodeRaw(size), old(Rest())), Rest())
      decreases n
    {
      if n == 0 {
        return Some([]);
      }
      var x :- Read(size);
      var xs :- ReadEachFixed(size, n - 1);
      return Some([x] + xs);
    }

    method ReadFixedArray(size: FixedSize) returns (r: Option<seq<Bytes>>)
      requires Valid()
      modifies this`offset
      ensures Valid() && Follows(r, DecodeArray(size, DecodeRaw(size), old(Rest())), Rest())
    {
      var n :- ReadLengthFor(size);
      r := ReadEachFixed(size, n);
    }

    method ReadEachStringZ(n: nat) returns (r: Option<seq<Text>>)
      requires Valid()
      modifies this`offset
      ensures Valid() && Follows(r, DecodeAll(n, DecodeZ, old(Rest())), Rest())
      decreases n
    {
      if n == 0 {
        return Some([]);
      }
      var x :- ReadStringZ();
      var xs :- ReadEachStringZ(n - 1);
      return Some([x] + xs);
    }

    method ReadStringZArray() returns (r: Option<seq<Text>>)
      requires Valid()
      modifies this`offset
      ensures Valid() && Follows(r, DecodeArray(1, DecodeZ, old(Rest())), Rest())
    {
      var n :- ReadLengthFor(1);
      r := ReadEachStringZ(n);
    }
  }

  lemma ZeroFound(s: Bytes, n: nat)
    requires n <= |s| && 0 !in s[..n] && (n < |s| ==> s[n] == 0)
    ensures ZeroAt(s) == n
  {
    var z := ZeroAt(s);
    assert forall i :: 0 <= i < n ==> s[i] == s[..n][i];
    assert forall i :: 0 <= i < z ==> s[i] == s[..z][i];
  }

  /** A writer method succeeded exactly when the specification does, and then appended its bytes. */
  predicate Wrote(ok: bool, spec: Option<Bytes>, before: Bytes, after: Bytes) {
    ok == spec.Some? && (ok ==> after == before + spec.value)
  }

  function Join(a: Option<Bytes>, b: Option<Bytes>): Option<Bytes> {
    if a.Some? && b.Some? then Some(a.value + b.value) else None
  }

  lemma {:induction false} AllConcat<T>(a: seq<T>, b: seq<T>, f: T -> Option<Bytes>)
    ensures EncodeAll(a + b, f) == Join(EncodeAll(a, f), EncodeAll(b, f))
  {
    if a == [] {
      assert a + b == b;
      assert EncodeAll(b, f).Some? ==> [] + EncodeAll(b, f).value == EncodeAll(b, f).value;
    } else {
      assert (a + b)[1..] == a[1..] + b;
      AllConcat(a[1..], b, f);
      JoinAssociates(f(a[0]), EncodeAll(a[1..], f), EncodeAll(b, f));
    }
  }

  lemma JoinAssociates(a: Option<Bytes>, b: Option<Bytes>, c: Option<Bytes>)
    ensures Join(Join(a, b), c) == Join(a, Join(b, c))
  {
    if a.Some? && b.Some? && c.Some? {
      assert a.value + b.value + c.value == a.value + (b.value + c.value);
    }
  }

  lemma AllSnoc<T>(xs: seq<T>, f: T -> Option<Bytes>, i: nat)
    requires i < |xs|
    ensures EncodeAll(xs[..i + 1], f) == Join(EncodeAll(xs[..i], f), f(xs[i]))
  {
    assert xs[..i + 1] == xs[..i] + [xs[i]];
    AllConcat(xs[..i], [xs[i]], f);
    assert EncodeAll([xs[i]], f) == Join(f(xs[i]), Some([]));
    assert f(xs[i]).Some? ==> f(xs[i]).value + [] == f(xs[i]).value;
  }

  lemma AllStops<T>(xs: seq<T>, f: T -> Option<Bytes>, i: nat)
    requires i < |xs| && f(xs[i]).None?
    ensures EncodeAll(xs, f).None?
  {
    AllSnoc(xs, f, i);
    assert xs == xs[..i + 1] + xs[i + 1..];
    AllConcat(xs[..i + 1], xs[i + 1..], f);
  }
}
