/** The VM's binary primitives: variable-length integers, byte strings and numbers. */
module VmBinary {
  import opened Words

  const MAX_ARRAY_SIZE: nat := 0x0100_0000

  // ----- little-endian fields -----

  function ReadWord(w: nat, s: Bytes): (r: Read<int>)
    ensures r.Got? ==> 0 <= r.value < Pow256(w) && |r.rest| + w == |s|
  {
    var (raw, rest) :- Take(w, s);
    Got(Unsigned(raw), rest)
  }

  lemma WordBack(w: nat, v: int, r: Bytes)
    requires 0 <= v < Pow256(w)
    ensures ReadWord(w, LE(w, v) + r) == Got(v, r)
  {
    TakeBack(LE(w, v), r);
    UnsignedLE(w, v);
  }

  lemma WordSizes()
    ensures Pow256(1) == 0x100 && Pow256(2) == 0x1_0000 && Pow256(4) == 0x1_0000_0000
    ensures Pow256(8) == 0x1_0000_0000_0000_0000
  {
  }

  // ----- variable-length integers -----

  /** A length is 64 bits wide; a wider number would keep its low eight bytes. */
  function EncodeVarUInt(n: nat): (s: Bytes)
    ensures |s| >= 1
  {
    if n < 0xFD then [n]
    else if n <= 0xFFFF then [0xFD] + LE(2, n)
    else if n <= 0xFFFF_FFFF then [0xFE] + LE(4, n)
    else [0xFF] + LE(8, n)
  }

  function VarWidth(marker: Byte): nat {
    if marker == 0xFD then 2 else if marker == 0xFE then 4 else if marker == 0xFF then 8 else 0
  }

  function DecodeVarUInt(s: Bytes): (r: Read<U64>)
    ensures r.Got? ==> |r.rest| < |s|
  {
    var (m, rest) :- Take(1, s);
    if VarWidth(m[0]) == 0 then Got(m[0], rest) else
      var (n, rest') :- ReadWord(VarWidth(m[0]), rest);
      WordSizes();
      Got(n, rest')
  }

  lemma MarkedBack(marker: Byte, w: nat, n: U64, r: Bytes)
    requires VarWidth(marker) == w && w > 0 && n < Pow256(w)
    ensures DecodeVarUInt([marker] + LE(w, n) + r) == Got(n, r)
  {
    assert [marker] + LE(w, n) + r == [marker] + (LE(w, n) + r);
    TakeBack([marker], LE(w, n) + r);
    WordBack(w, n, r);
  }

  lemma VarUIntBack(n: U64, r: Bytes)
    ensures DecodeVarUInt(EncodeVarUInt(n) + r) == Got(n, r)
  {
    WordSizes();
    if n < 0xFD {
      TakeBack([n], r);
    } else if n <= 0xFFFF {
      MarkedBack(0xFD, 2, n, r);
    } else if n <= 0xFFFF_FFFF {
      MarkedBack(0xFE, 4, n, r);
    } else {
      MarkedBack(0xFF, 8, n, r);
    }
  }

  lemma VarUIntMore(s: Bytes, t: Bytes)
    requires DecodeVarUInt(s).Got?
    ensures DecodeVarUInt(s + t) == Got(DecodeVarUInt(s).value, DecodeVarUInt(s).rest + t)
  {
    TakeMore(1, s, t);
    if VarWidth(s[0]) != 0 {
      TakeMore(VarWidth(s[0]), s[1..], t);
    }
  }

  // ----- byte strings -----

  function EncodeVarBytes(b: Bytes): (s: Bytes)
    ensures |s| > |b|
  {
    EncodeVarUInt(|b|) + b
  }

  /** Refused above the size limit, whatever the input holds. */
  function DecodeVarBytes(s: Bytes): (r: Read<Bytes>)
    ensures r.Got? ==> |r.rest| < |s| && |r.value| <= MAX_ARRAY_SIZE
  {
    var (n, rest) :- DecodeVarUInt(s);
    if n > MAX_ARRAY_SIZE then Refused else Take(n, rest)
  }

  /** Byte strings come back up to the limit and are refused above it. */
  lemma VarBytesBack(b: Bytes, r: Bytes)
    requires |b| < 0x1_0000_0000_0000_0000
    ensures DecodeVarBytes(EncodeVarBytes(b) + r) == if |b| <= MAX_ARRAY_SIZE then Got(b, r) else Refused
  {
    assert EncodeVarBytes(b) + r == EncodeVarUInt(|b|) + (b + r);
    VarUIntBack(|b|, b + r);
    TakeBack(b, r);
  }

  lemma VarBytesMore(s: Bytes, t: Bytes)
    requires DecodeVarBytes(s).Got?
    ensures DecodeVarBytes(s + t) == Got(DecodeVarBytes(s).value, DecodeVarBytes(s).rest + t)
  {
    VarUIntMore(s, t);
    TakeMore(DecodeVarUInt(s).value, DecodeVarUInt(s).rest, t);
  }

  // ----- numbers -----

  /** The fewest bytes whose two's complement holds `v`. */
  function SignedWidth(v: int): (n: nat)
    ensures n >= 1
    decreases if v < 0 then -v else v
  {
    if -128 <= v < 128 then 1 else 1 + SignedWidth(v / 256)
  }

  lemma {:induction false} WidthFits(v: int)
    ensures FitsSigned(SignedWidth(v), v)
    decreases if v < 0 then -v else v
  {
    WordSizes();
    if !(-128 <= v < 128) {
      WidthFits(v / 256);
      FitsStep(SignedWidth(v / 256), v);
    }
  }

  lemma FitsStep(n: nat, v: int)
    requires n >= 1
    ensures FitsSigned(n + 1, v) <==> FitsSigned(n, v / 256)
  {
    EvenPow(n);
    FitsScaled(Pow256(n), v);
  }

  lemma FitsScaled(p: int, v: int)
    requires p % 2 == 0
    ensures -(256 * p) <= 2 * v < 256 * p <==> -p <= 2 * (v / 256) < p
  {
    var h := p / 2;
    assert p == 2 * h;
  }

  /** No shorter word holds the number. */
  lemma {:induction false} WidthLeast(v: int, n: nat)
    requires 1 <= n < SignedWidth(v)
    ensures !FitsSigned(n, v)
    decreases n
  {
    WordSizes();
    if n > 1 {
      WidthLeast(v / 256, n - 1);
      FitsStep(n - 1, v);
    }
  }

  /** C#'s BigInteger bytes: the shortest two's complement, one byte for zero. */
  function CsharpBytes(v: int): (s: Bytes)
    ensures s != []
  {
    LE(SignedWidth(v), v)
  }

  lemma CsharpBack(v: int)
    ensures Signed(CsharpBytes(v)) == v
  {
    WidthFits(v);
    SignedLE(SignedWidth(v), v);
  }

  /** The VM pads C#'s bytes further; how many bytes it adds. */
  function PadLength(v: int): nat {
    var raw := CsharpBytes(v);
    var top := raw[|raw| - 1];
    if v < 0 then if |raw| == 1 then 2 else if top == 0xFF then 1 else 0
    else if top != 0 then 1 else 0
  }

  function VmBytes(v: int): (s: Bytes)
    ensures s != []
  {
    CsharpBytes(v) + Fill(PadLength(v), if v < 0 then 0xFF else 0)
  }

  /** `big_int_to_vm_bytes` as it pushes the padding. */
  method BigIntToVmBytes(v: int) returns (raw: Bytes)
    ensures raw == VmBytes(v)
  {
    raw := CsharpBytes(v);
    ghost var was := raw;
    if v < 0 {
      if |raw| == 1 {
        raw := raw + [0xFF, 0xFF];
        assert raw == was + Fill(2, 0xFF);
      } else if raw[|raw| - 1] == 0xFF {
        raw := raw + [0xFF];
        assert raw == was + Fill(1, 0xFF);
      } else {
        assert raw == was + Fill(0, 0xFF);
      }
    } else if raw[|raw| - 1] != 0 {
      raw := raw + [0];
      assert raw == was + Fill(1, 0);
    } else {
      assert raw == was + Fill(0, 0);
    }
  }

  /** Padding is always a sign extension, so every integer is preserved. */
  lemma VmBytesBack(v: int)
    ensures Signed(VmBytes(v)) == v
  {
    CsharpBack(v);
    SignedSign(CsharpBytes(v));
    SignExtend(CsharpBytes(v), PadLength(v));
  }

  function EncodeNumber(v: int): Bytes {
    EncodeVarBytes(VmBytes(v))
  }

  function DecodeNumber(s: Bytes): (r: Read<int>)
    ensures r.Got? ==> |r.rest| < |s|
  {
    var (raw, rest) :- DecodeVarBytes(s);
    Got(Signed(raw), rest)
  }

  lemma NumberBack(v: int, r: Bytes)
    requires |VmBytes(v)| < 0x1_0000_0000_0000_0000
    ensures DecodeNumber(EncodeNumber(v) + r) == if |VmBytes(v)| <= MAX_ARRAY_SIZE then Got(v, r) else Refused
  {
    VarBytesBack(VmBytes(v), r);
    VmBytesBack(v);
  }

  function DecodeString(s: Bytes): (r: Read<Text>)
    ensures r.Got? ==> |r.rest| < |s|
  {
    var (raw, rest) :- DecodeVarBytes(s);
    if ValidUtf8(raw) then Got(raw, rest) else Refused
  }
}
