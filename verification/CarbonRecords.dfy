/**
  Fixed-shape Carbon records as lists of typed fields. Every transaction body and argument struct is
  such a list, so one round trip and one prefix property serve them all.
 */
module CarbonRecords {
  import opened Words
  import opened CarbonWire

  datatype Kind = KU8 | KU32 | KI64 | KU64 | KBytes32 | KIntX | KBlob | KSmall | KU64s

  datatype Val =
    | U8(byte: Byte)
    | N32(u32: U32)
    | S64(i64: I64)
    | N64(u64: U64)
    | B32(bytes32: Bytes32)
    | X(number: int)
    | Blob(blob: Bytes)
    | Small(text: Text)
    | N64s(list: seq<U64>)

  function KindOf(v: Val): Kind {
    match v
    case U8(_) => KU8
    case N32(_) => KU32
    case S64(_) => KI64
    case N64(_) => KU64
    case B32(_) => KBytes32
    case X(_) => KIntX
    case Blob(_) => KBlob
    case Small(_) => KSmall
    case N64s(_) => KU64s
  }

  function EncodeU64(n: U64): Option<Bytes> {
    Some(LE(8, n))
  }

  function DecodeU64(s: Bytes): Read<U64> {
    assert Pow256(8) == 0x1_0000_0000_0000_0000;
    var (n, rest) :- DecodeUIntAt(8, s);
    Got(n, rest)
  }

  function EncodeVal(v: Val): Option<Bytes> {
    match v
    case U8(b) => Some([b])
    case N32(n) => Some(LE(4, n))
    case S64(n) => Some(LE(8, n))
    case N64(n) => EncodeU64(n)
    case B32(b) => Some(b)
    case X(n) => EncodeIntX(n)
    case Blob(b) => EncodeBlob(b)
    case Small(s) => EncodeSmall(s)
    case N64s(ns) => EncodeArray(ns, EncodeU64)
  }

  function DecodeVal(k: Kind, s: Bytes): (r: Read<Val>)
    ensures r.Got? ==> KindOf(r.value) == k
  {
    match k
    case KU8 =>
      var (raw, rest) :- Take(1, s);
      Got(U8(raw[0]), rest)
    case KU32 =>
      assert Pow256(4) == 0x1_0000_0000;
      var (n, rest) :- DecodeUIntAt(4, s);
      Got(N32(n), rest)
    case KI64 =>
      var (raw, rest) :- Take(8, s);
      WordRange(raw);
      Got(S64(Signed(raw)), rest)
    case KU64 =>
      var (n, rest) :- DecodeU64(s);
      Got(N64(n), rest)
    case KBytes32 =>
      var (raw, rest) :- Decode32(s);
      Got(B32(raw), rest)
    case KIntX =>
      var (n, rest) :- DecodeIntX(s);
      Got(X(n), rest)
    case KBlob =>
      var (b, rest) :- DecodeBlob(s);
      Got(Blob(b), rest)
    case KSmall =>
      var (x, rest) :- DecodeSmall(s);
      Got(Small(x), rest)
    case KU64s =>
      var (ns, rest) :- DecodeArray(8, DecodeU64, s);
      Got(N64s(ns), rest)
  }

  lemma WordRange(raw: Bytes)
    requires |raw| == 8
    ensures -0x8000_0000_0000_0000 <= Signed(raw) < 0x8000_0000_0000_0000
  {
    assert Pow256(8) == 0x1_0000_0000_0000_0000;
    SignedFits(raw);
  }

  /** Lengths below 2^31, and IntX numbers the reader takes back. */
  predicate ReadableVal(v: Val) {
    match v
    case X(n) => IntXReadable(n)
    case Blob(b) => |b| < MAX_LEN
    case N64s(ns) => |ns| < MAX_LEN
    case _ => true
  }

  /** Only an IntX outside the signed 256-bit range changes on the wire. */
  function CanonVal(v: Val): Val {
    if v.X? then X(Reduce(v.number)) else v
  }

  lemma U64Back(n: U64, r: Bytes)
    ensures DecodeU64(LE(8, n) + r) == Got(n, r)
  {
    assert Pow256(8) == 0x1_0000_0000_0000_0000;
    UIntBack(8, n, r);
  }

  lemma U64sBack(ns: seq<U64>, r: Bytes)
    requires EncodeArray(ns, EncodeU64).Some? && |ns| < MAX_LEN
    ensures DecodeArray(8, DecodeU64, EncodeArray(ns, EncodeU64).value + r) == Got(ns, r)
  {
    var id := (n: U64) => n;
    forall n | n in ns ensures Inverts(EncodeU64, DecodeU64, id, n) {
      forall r: Bytes { U64Back(n, r); }
    }
    ArrayBack(ns, 8, EncodeU64, DecodeU64, id, r);
    assert Map(id, ns) == ns;
  }

  lemma ValBack(v: Val, r: Bytes)
    requires EncodeVal(v).Some? && ReadableVal(v)
    ensures DecodeVal(KindOf(v), EncodeVal(v).value + r) == Got(CanonVal(v), r)
  {
    match v
    case U8(b) => TakeBack([b], r);
    case N32(n) => assert Pow256(4) == 0x1_0000_0000; UIntBack(4, n, r);
    case S64(n) =>
      assert Pow256(8) == 0x1_0000_0000_0000_0000;
      SignedLE(8, n);
      TakeBack(LE(8, n), r);
    case N64(n) => U64Back(n, r);
    case B32(b) => TakeBack(b, r);
    case X(n) => IntXBack(n, r);
    case Blob(b) => BlobBack(b, r);
    case Small(s) => SmallBack(s, r);
    case N64s(ns) => U64sBack(ns, r);
  }

  lemma U64Stable()
    ensures Stable(DecodeU64)
  {
    forall s: Bytes, t: Bytes | DecodeU64(s).Got? { TakeMore(8, s, t); }
  }

  lemma ValMore(k: Kind, s: Bytes, t: Bytes)
    requires DecodeVal(k, s).Got?
    ensures DecodeVal(k, s + t) == Got(DecodeVal(k, s).value, DecodeVal(k, s).rest + t)
  {
    match k
    case KU8 => TakeMore(1, s, t);
    case KU32 => TakeMore(4, s, t);
    case KI64 => TakeMore(8, s, t);
    case KU64 => TakeMore(8, s, t);
    case KBytes32 => TakeMore(32, s, t);
    case KIntX => IntXMore(s, t);
    case KBlob => BlobMore(s, t);
    case KSmall => SmallMore(s, t);
    case KU64s => U64Stable(); ArrayMore(8, DecodeU64, s, t);
  }

  // ----- records -----

  function Kinds(vs: seq<Val>): (ks: seq<Kind>)
    ensures |ks| == |vs|
    ensures forall i :: 0 <= i < |ks| ==> ks[i] == KindOf(vs[i])
  {
    seq(|vs|, i requires 0 <= i < |vs| => KindOf(vs[i]))
  }

  function EncodeVals(vs: seq<Val>): Option<Bytes> {
    if vs == [] then Some([]) else
      var head :- EncodeVal(vs[0]);
      var tail :- EncodeVals(vs[1..]);
      Some(head + tail)
  }

  function DecodeVals(ks: seq<Kind>, s: Bytes): (r: Read<seq<Val>>)
    ensures r.Got? ==> |r.value| == |ks|
    ensures r.Got? ==> forall i :: 0 <= i < |ks| ==> KindOf(r.value[i]) == ks[i]
  {
    if ks == [] then Got([], s) else
      var (v, rest) :- DecodeVal(ks[0], s);
      var (vs, rest') :- DecodeVals(ks[1..], rest);
      Got([v] + vs, rest')
  }

  predicate ReadableVals(vs: seq<Val>) {
    forall v :: v in vs ==> ReadableVal(v)
  }

  function CanonVals(vs: seq<Val>): seq<Val> {
    Map(CanonVal, vs)
  }

  lemma {:induction false} ValsBack(vs: seq<Val>, r: Bytes)
    requires EncodeVals(vs).Some? && ReadableVals(vs)
    ensures DecodeVals(Kinds(vs), EncodeVals(vs).value + r) == Got(CanonVals(vs), r)
  {
    if vs == [] {
      assert [] + r == r;
    } else {
      var head, tail := EncodeVal(vs[0]).value, EncodeVals(vs[1..]).value;
      assert head + tail + r == head + (tail + r);
      assert Kinds(vs)[1..] == Kinds(vs[1..]);
      ValBack(vs[0], tail + r);
      ValsBack(vs[1..], r);
    }
  }

  lemma {:induction false} ValsMore(ks: seq<Kind>, s: Bytes, t: Bytes)
    requires DecodeVals(ks, s).Got?
    ensures DecodeVals(ks, s + t) == Got(DecodeVals(ks, s).value, DecodeVals(ks, s).rest + t)
  {
    if ks != [] {
      ValMore(ks[0], s, t);
      ValsMore(ks[1..], DecodeVal(ks[0], s).rest, t);
    }
  }
}
