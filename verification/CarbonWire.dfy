/**
  The primitives of the Carbon wire format as functions on bytes: `Encode…` gives the bytes the
  writer appends (None when it refuses), `Decode…` what the reader makes of the unread bytes.
 */
module CarbonWire {
  import opened Words

  const MAX_LEN := 0x8000_0000 // lengths from here on are read back as negative
  const WORD_BYTES: nat := 32

  // ----- lengths -----

  /** `ensure_u32_len(n)? as i32`. */
  function EncodeLen(n: nat): (r: Option<Bytes>)
    ensures r.Some? ==> |r.value| == 4
  {
    if n < 0x1_0000_0000 then Some(LE(4, n)) else None
  }

  function DecodeI32(s: Bytes): Read<int> {
    var (raw, rest) :- Take(4, s);
    Got(Signed(raw), rest)
  }

  /** `read_length_for`: a count that cannot be met by the unread bytes is refused up front. */
  function DecodeLenFor(w: nat, s: Bytes): (r: Read<nat>)
    ensures r.Got? ==> |s| == 4 + |r.rest| && r.value * w <= |r.rest|
  {
    var (n, rest) :- DecodeI32(s);
    if n < 0 || w == 0 || n * w > |rest| then Refused else Got(n, rest)
  }

  lemma LenBack(n: nat, w: nat, r: Bytes)
    requires n < MAX_LEN && w > 0 && n * w <= |r|
    ensures EncodeLen(n).Some? && DecodeLenFor(w, EncodeLen(n).value + r) == Got(n, r)
  {
    assert Pow256(4) == 0x1_0000_0000;
    SignedLE(4, n);
    TakeBack(LE(4, n), r);
  }

  lemma LenMore(w: nat, s: Bytes, t: Bytes)
    requires DecodeLenFor(w, s).Got?
    ensures DecodeLenFor(w, s + t) == Got(DecodeLenFor(w, s).value, DecodeLenFor(w, s).rest + t)
  {
    TakeMore(4, s, t);
  }

  /** A length of 2^31 or more is written, and never read back, whatever follows. */
  lemma LongLengthRefused(n: nat, w: nat, r: Bytes)
    requires MAX_LEN <= n < 0x1_0000_0000
    ensures EncodeLen(n).Some? && DecodeLenFor(w, EncodeLen(n).value + r).Refused?
  {
    assert Pow256(4) == 0x1_0000_0000;
    UnsignedLE(4, n);
    TopByte(LE(4, n));
    TakeBack(LE(4, n), r);
  }

  // ----- arrays of independently coded elements -----

  function EncodeAll<T>(xs: seq<T>, f: T -> Option<Bytes>): Option<Bytes> {
    if xs == [] then Some([]) else
      var head :- f(xs[0]);
      var tail :- EncodeAll(xs[1..], f);
      Some(head + tail)
  }

  function DecodeAll<T>(n: nat, g: Bytes -> Read<T>, s: Bytes): (r: Read<seq<T>>)
    ensures r.Got? ==> |r.value| == n
  {
    if n == 0 then Got([], s) else
      var (x, rest) :- g(s);
      var (xs, rest') :- DecodeAll(n - 1, g, rest);
      Got([x] + xs, rest')
  }

  function EncodeArray<T>(xs: seq<T>, f: T -> Option<Bytes>): Option<Bytes> {
    var head :- EncodeLen(|xs|);
    var tail :- EncodeAll(xs, f);
    Some(head + tail)
  }

  function DecodeArray<T>(w: nat, g: Bytes -> Read<T>, s: Bytes): Read<seq<T>> {
    var (n, rest) :- DecodeLenFor(w, s);
    DecodeAll(n, g, rest)
  }

  function Map<T, U>(c: T -> U, xs: seq<T>): (ys: seq<U>)
    ensures |ys| == |xs|
    ensures forall i :: 0 <= i < |xs| ==> ys[i] == c(xs[i])
  {
    if xs == [] then [] else [c(xs[0])] + Map(c, xs[1..])
  }

  /** Whatever follows, `g` reads what `f` wrote for `x` as `c(x)`. */
  ghost predicate Inverts<T, U>(f: T -> Option<Bytes>, g: Bytes -> Read<U>, c: T -> U, x: T) {
    f(x).Some? ==> forall r: Bytes :: g(f(x).value + r) == Got(c(x), r)
  }

  /** Reading looks only at the bytes it consumes: more input changes nothing but the rest. */
  ghost predicate Stable<T(!new)>(g: Bytes -> Read<T>) {
    forall s: Bytes, t: Bytes :: g(s).Got? ==> g(s + t) == Got(g(s).value, g(s).rest + t)
  }

  ghost predicate Shrinks<T>(g: Bytes -> Read<T>) {
    forall s: Bytes :: g(s).Got? ==> |g(s).rest| <= |s|
  }

  lemma {:induction false} AllShrinks<T>(n: nat, g: Bytes -> Read<T>, s: Bytes)
    requires Shrinks(g)
    ensures DecodeAll(n, g, s).Got? ==> |DecodeAll(n, g, s).rest| <= |s|
  {
    if n > 0 && g(s).Got? {
      AllShrinks(n - 1, g, g(s).rest);
    }
  }

  lemma ArrayShrinks<T>(w: nat, g: Bytes -> Read<T>, s: Bytes)
    requires Shrinks(g)
    ensures DecodeArray(w, g, s).Got? ==> |DecodeArray(w, g, s).rest| <= |s|
  {
    var len := DecodeLenFor(w, s);
    if len.Got? {
      AllShrinks(len.value, g, len.rest);
    }
  }

  lemma {:induction false} AllBack<T, U>(xs: seq<T>, f: T -> Option<Bytes>, g: Bytes -> Read<U>, c: T -> U, r: Bytes)
    requires EncodeAll(xs, f).Some?
    requires forall x :: x in xs ==> Inverts(f, g, c, x)
    ensures DecodeAll(|xs|, g, EncodeAll(xs, f).value + r) == Got(Map(c, xs), r)
  {
    if xs == [] {
      assert [] + r == r;
    } else {
      var tail := EncodeAll(xs[1..], f).value;
      AllBack(xs[1..], f, g, c, r);
      assert Inverts(f, g, c, xs[0]);
      assert (f(xs[0]).value + tail) + r == f(xs[0]).value + (tail + r);
    }
  }

  lemma {:induction false} AllLength<T>(xs: seq<T>, f: T -> Option<Bytes>, w: nat)
    requires EncodeAll(xs, f).Some?
    requires forall x :: x in xs && f(x).Some? ==> |f(x).value| >= w
    ensures |xs| * w <= |EncodeAll(xs, f).value|
  {
    if xs != [] {
      AllLength(xs[1..], f, w);
      assert xs[0] in xs && |xs| * w == w + |xs[1..]| * w;
    }
  }

  /** A counted array reads back element by element, provided no element is narrower than the reader assumes. */
  lemma ArrayBack<T, U>(xs: seq<T>, w: nat, f: T -> Option<Bytes>, g: Bytes -> Read<U>, c: T -> U, r: Bytes)
    requires EncodeArray(xs, f).Some? && |xs| < MAX_LEN && w > 0
    requires forall x :: x in xs ==> Inverts(f, g, c, x)
    requires forall x :: x in xs && f(x).Some? ==> |f(x).value| >= w
    ensures DecodeArray(w, g, EncodeArray(xs, f).value + r) == Got(Map(c, xs), r)
  {
    AllLength(xs, f, w);
    AllBack(xs, f, g, c, r);
    CountedBack(|xs|, w, g, EncodeAll(xs, f).value, r);
  }

  /** What follows a length prefix is read as if the prefix were not there. */
  lemma CountedBack<U>(n: nat, w: nat, g: Bytes -> Read<U>, body: Bytes, r: Bytes)
    requires n < MAX_LEN && w > 0 && n * w <= |body|
    ensures EncodeLen(n).Some?
    ensures DecodeArray(w, g, EncodeLen(n).value + body + r) == DecodeAll(n, g, body + r)
  {
    LenBack(n, w, body + r);
    assert EncodeLen(n).value + body + r == EncodeLen(n).value + (body + r);
  }

  lemma {:induction false} AllMore<T(!new)>(n: nat, g: Bytes -> Read<T>, s: Bytes, t: Bytes)
    requires Stable(g) && DecodeAll(n, g, s).Got?
    ensures DecodeAll(n, g, s + t) == Got(DecodeAll(n, g, s).value, DecodeAll(n, g, s).rest + t)
  {
    if n > 0 {
      AllMore(n - 1, g, g(s).rest, t);
    }
  }

  lemma ArrayMore<T(!new)>(w: nat, g: Bytes -> Read<T>, s: Bytes, t: Bytes)
    requires Stable(g) && DecodeArray(w, g, s).Got?
    ensures DecodeArray(w, g, s + t) == Got(DecodeArray(w, g, s).value, DecodeArray(w, g, s).rest + t)
  {
    LenMore(w, s, t);
    AllMore(DecodeLenFor(w, s).value, g, DecodeLenFor(w, s).rest, t);
  }

  // ----- compact 256-bit integers -----

  /** Numbers a 256-bit word can carry: signed ones, and unsigned ones taken as two's complement. */
  predicate FitsWord(v: int) {
    -Pow256(WORD_BYTES) <= 2 * v && v < Pow256(WORD_BYTES)
  }

  function SignByte(w: Bytes): Byte {
    if Negative(w) then 0xFF else 0x00
  }

  /** Length of `w[..len]` without its trailing `fill` bytes. */
  function TrimLen(w: Bytes, fill: Byte, len: nat): (n: nat)
    requires len <= |w|
    ensures n <= len
    ensures forall i :: n <= i < len ==> w[i] == fill
    ensures n > 0 ==> w[n - 1] != fill
  {
    if len > 0 && w[len - 1] == fill then TrimLen(w, fill, len - 1) else len
  }

  /** The length of a compact word and, in the top bit, its sign. */
  function CompactHeader(len: nat, negative: bool): Byte
    requires len <= WORD_BYTES
  {
    if negative then len + 0x80 else len
  }

  lemma HeaderParts(len: nat, negative: bool)
    requires len <= WORD_BYTES
    ensures var h := CompactHeader(len, negative);
            h % 64 == len && (h / 64) % 2 == 0 && (h >= 0x80 <==> negative) && (h == 0 <==> len == 0 && !negative)
  {
  }

  function HeaderByte(w: Bytes): Byte
    requires |w| == WORD_BYTES
  {
    CompactHeader(TrimLen(w, SignByte(w), WORD_BYTES), Negative(w))
  }

  function Compact(w: Bytes): (s: Bytes)
    requires |w| == WORD_BYTES
  {
    [HeaderByte(w)] + w[..TrimLen(w, SignByte(w), WORD_BYTES)]
  }

  function EncodeBigInt(v: int): (r: Option<Bytes>)
    ensures r.Some? ==> |r.value| >= 1
  {
    if v == 0 then Some([0]) else if !FitsWord(v) then None else Some(Compact(LE(WORD_BYTES, v)))
  }

  function Widen(raw: Bytes, negative: bool): (w: Bytes)
    requires |raw| <= WORD_BYTES
    ensures |w| == WORD_BYTES
  {
    raw + Fill(WORD_BYTES - |raw|, if negative then 0xFF else 0x00)
  }

  function DecodeBigIntWith(header: Byte, s: Bytes): (r: Read<int>)
    ensures r.Got? ==> |r.rest| <= |s|
  {
    if header == 0 then Got(0, s) else
      var len := header % 64;
      if (header / 64) % 2 == 1 || len > WORD_BYTES then Refused else
        var (raw, rest) :- Take(len, s);
        var word := Widen(raw, header >= 0x80);
        if Negative(word) != (header >= 0x80) then Refused else Got(Signed(word), rest)
  }

  function DecodeBigInt(s: Bytes): (r: Read<int>)
    ensures r.Got? ==> |r.rest| < |s|
  {
    var (h, rest) :- Take(1, s);
    DecodeBigIntWith(h[0], rest)
  }

  /** The signed number a 256-bit word stores for `v`. */
  function Reduce(v: int): int {
    Signed(LE(WORD_BYTES, v))
  }

  lemma ReduceIs(v: int)
    requires FitsWord(v)
    ensures Reduce(v) == if 2 * v < Pow256(WORD_BYTES) then v else v - Pow256(WORD_BYTES)
  {
    if 2 * v < Pow256(WORD_BYTES) {
      SignedLE(WORD_BYTES, v);
    } else {
      UnsignedLE(WORD_BYTES, v);
      TopByte(LE(WORD_BYTES, v));
    }
  }

  lemma WidenCompact(w: Bytes)
    requires |w| == WORD_BYTES
    ensures var len := TrimLen(w, SignByte(w), WORD_BYTES); Widen(w[..len], Negative(w)) == w
  {
  }

  lemma ZeroWord()
    ensures LE(WORD_BYTES, 0) == Fill(WORD_BYTES, 0)
  {
    LEZero(WORD_BYTES);
  }

  lemma {:induction false} LEZero(n: nat)
    ensures LE(n, 0) == Fill(n, 0)
  {
    if n > 0 {
      LEZero(n - 1);
    }
  }

  /** A compact word is read back as the number it stores. */
  lemma CompactBack(w: Bytes, r: Bytes)
    requires |w| == WORD_BYTES && w != Fill(WORD_BYTES, 0)
    ensures DecodeBigInt(Compact(w) + r) == Got(Signed(w), r)
  {
    var body := w[..TrimLen(w, SignByte(w), WORD_BYTES)];
    HeaderNotZero(w);
    CompactBody(w, r);
    assert Compact(w) + r == [HeaderByte(w)] + (body + r);
    TakeBack([HeaderByte(w)], body + r);
  }

  lemma HeaderNotZero(w: Bytes)
    requires |w| == WORD_BYTES && w != Fill(WORD_BYTES, 0)
    ensures TrimLen(w, SignByte(w), WORD_BYTES) > 0 || Negative(w)
  {
    var i :| 0 <= i < |w| && w[i] != 0;
  }

  lemma CompactBody(w: Bytes, r: Bytes)
    requires |w| == WORD_BYTES
    requires TrimLen(w, SignByte(w), WORD_BYTES) > 0 || Negative(w)
    ensures DecodeBigIntWith(HeaderByte(w), w[..TrimLen(w, SignByte(w), WORD_BYTES)] + r) == Got(Signed(w), r)
  {
    var len := TrimLen(w, SignByte(w), WORD_BYTES);
    HeaderParts(len, Negative(w));
    WidenCompact(w);
    BodyBack(HeaderByte(w), w[..len], w, r);
  }

  lemma BodyBack(header: Byte, raw: Bytes, w: Bytes, r: Bytes)
    requires header != 0 && header % 64 == |raw| <= WORD_BYTES && (header / 64) % 2 == 0
    requires w == Widen(raw, header >= 0x80) && Negative(w) == (header >= 0x80)
    ensures DecodeBigIntWith(header, raw + r) == Got(Signed(w), r)
  {
    TakeBack(raw, r);
  }

  /** Every accepted number reads back as its signed 256-bit form, whatever follows. */
  lemma BigIntBack(v: int, r: Bytes)
    requires EncodeBigInt(v).Some?
    ensures DecodeBigInt(EncodeBigInt(v).value + r) == Got(Reduce(v), r)
  {
    ZeroWord();
    UnsignedFill(WORD_BYTES, false);
    if v == 0 {
      TakeBack([0], r);
    } else {
      var w := LE(WORD_BYTES, v);
      ReduceIs(v);
      assert Reduce(v) != 0;
      CompactBack(w, r);
    }
  }

  lemma BigIntInverts(v: int)
    ensures Inverts(EncodeBigInt, DecodeBigInt, Reduce, v)
  {
    if EncodeBigInt(v).Some? {
      forall r: Bytes {
        BigIntBack(v, r);
      }
    }
  }

  /** Reading back the signed form of a number changes nothing on the wire. */
  lemma ReduceSame(v: int)
    requires FitsWord(v)
    ensures FitsWord(Reduce(v)) && EncodeBigInt(Reduce(v)) == EncodeBigInt(v) && Reduce(Reduce(v)) == Reduce(v)
  {
    LESigned(LE(WORD_BYTES, v));
    SignedFits(LE(WORD_BYTES, v));
    ReduceIs(v);
  }

  lemma TrimLenLeast(w: Bytes, fill: Byte, n: nat)
    requires n <= |w| && forall i :: n <= i < |w| ==> w[i] == fill
    ensures TrimLen(w, fill, |w|) <= n
  {
  }

  /** No accepted encoding of a number is shorter than the one the writer produces. */
  lemma BigIntShortest(s: Bytes)
    requires DecodeBigInt(s).Got?
    ensures FitsWord(DecodeBigInt(s).value)
    ensures EncodeBigInt(DecodeBigInt(s).value).Some?
    ensures |EncodeBigInt(DecodeBigInt(s).value).value| <= |s| - |DecodeBigInt(s).rest|
  {
    var header, rest := s[0], s[1..];
    if header != 0 {
      WordShortest(Take(header % 64, rest).value, header >= 0x80);
    }
  }

  lemma WordShortest(raw: Bytes, negative: bool)
    requires |raw| <= WORD_BYTES && Negative(Widen(raw, negative)) == negative
    ensures var v := Signed(Widen(raw, negative));
            FitsWord(v) && EncodeBigInt(v).Some? && |EncodeBigInt(v).value| <= 1 + |raw|
  {
    var w := Widen(raw, negative);
    LESigned(w);
    SignedFits(w);
    TrimLenLeast(w, SignByte(w), |raw|);
  }

  lemma BigIntMore(s: Bytes, t: Bytes)
    requires DecodeBigInt(s).Got?
    ensures DecodeBigInt(s + t) == Got(DecodeBigInt(s).value, DecodeBigInt(s).rest + t)
  {
    TakeMore(1, s, t);
    if s[0] != 0 {
      TakeMore(s[0] % 64, s[1..], t);
    }
  }

  // ----- IntX: eight bytes when they suffice -----

  function EncodeIntX(v: int): Option<Bytes> {
    if FitsSigned(8, v) then Some([if v < 0 then 0x88 else 0x08] + LE(8, v)) else EncodeBigInt(v)
  }

  function DecodeIntX(s: Bytes): (r: Read<int>)
    ensures r.Got? ==> |r.rest| < |s|
  {
    var (h, rest) :- Take(1, s);
    var header := h[0];
    var len := header % 64;
    if len < 8 then Refused
    else if len == 8 then
      var (raw, rest') :- Take(8, rest);
      if (header >= 0x80) == (Signed(raw) < 0) then Got(Signed(raw), rest')
      else Got(Signed(Widen(raw, header >= 0x80)), rest')
    else DecodeBigIntWith(header, rest)
  }

  /** Exactly the small numbers have short compact forms. */
  lemma ShortIffSmall(w: Bytes, n: nat)
    requires |w| == WORD_BYTES && n < WORD_BYTES
    ensures TrimLen(w, SignByte(w), WORD_BYTES) <= n <==> -Pow256(n) <= Signed(w) < Pow256(n)
  {
    if TrimLen(w, SignByte(w), WORD_BYTES) <= n {
      ShortIsSmall(w, n);
    }
    if -Pow256(n) <= Signed(w) < Pow256(n) {
      SmallIsShort(w, n);
    }
  }

  lemma ShortIsSmall(w: Bytes, n: nat)
    requires |w| == WORD_BYTES && TrimLen(w, SignByte(w), WORD_BYTES) <= n < WORD_BYTES
    ensures -Pow256(n) <= Signed(w) < Pow256(n)
  {
    var u := w[..n] + Fill(WORD_BYTES - n, if Negative(w) then 0xFF else 0);
    assert u == w;
    PaddedValue(w[..n], WORD_BYTES - n, Negative(w));
    assert |w[..n]| == n;
  }

  lemma SmallIsShort(w: Bytes, n: nat)
    requires |w| == WORD_BYTES && n < WORD_BYTES && -Pow256(n) <= Signed(w) < Pow256(n)
    ensures TrimLen(w, SignByte(w), WORD_BYTES) <= n
  {
    NarrowWord(n, Signed(w));
    var u := LE(n, Signed(w)) + Fill(WORD_BYTES - n, if Signed(w) < 0 then 0xFF else 0);
    LESigned(u);
    LESigned(w);
    assert w == u;
    TrimLenLeast(w, SignByte(w), n);
  }

  lemma NarrowWord(n: nat, x: int)
    requires n < WORD_BYTES && -Pow256(n) <= x < Pow256(n)
    ensures Signed(LE(n, x) + Fill(WORD_BYTES - n, if x < 0 then 0xFF else 0)) == x
  {
    if x < 0 {
      UnsignedLENegative(n, x);
    } else {
      UnsignedLE(n, x);
    }
    PaddedValue(LE(n, x), WORD_BYTES - n, x < 0);
  }

  /** The numbers whose IntX form the reader takes back: all but those just below 2^256. */
  predicate IntXReadable(v: int) {
    v < Pow256(WORD_BYTES) - Pow256(7)
  }

  lemma WiderThanEight(v: int)
    requires FitsWord(v) && !FitsSigned(8, v)
    ensures TrimLen(LE(WORD_BYTES, v), SignByte(LE(WORD_BYTES, v)), WORD_BYTES) >= 8 <==> IntXReadable(v)
  {
    ShortIffSmall(LE(WORD_BYTES, v), 7);
    ReduceIs(v);
    assert Pow256(8) == 256 * Pow256(7);
    Pow256Grows(8, WORD_BYTES);
    Pow256Grows(8, WORD_BYTES - 1);
    assert Pow256(WORD_BYTES) == 256 * Pow256(WORD_BYTES - 1);
  }

  lemma IntXFastBack(v: int, r: Bytes)
    requires FitsSigned(8, v)
    ensures DecodeIntX(EncodeIntX(v).value + r) == Got(v, r)
  {
    var h: Byte := if v < 0 then 0x88 else 0x08;
    SignedLE(8, v);
    assert EncodeIntX(v).value + r == [h] + (LE(8, v) + r);
    TakeBack([h], LE(8, v) + r);
    TakeBack(LE(8, v), r);
  }

  /** The compact form behind an IntX header, the eight-byte case with mismatched signs included. */
  lemma IntXWordBack(w: Bytes, r: Bytes)
    requires |w| == WORD_BYTES
    ensures TrimLen(w, SignByte(w), WORD_BYTES) >= 8 ==> DecodeIntX(Compact(w) + r) == Got(Signed(w), r)
    ensures TrimLen(w, SignByte(w), WORD_BYTES) < 8 ==> DecodeIntX(Compact(w) + r).Refused?
  {
    var len := TrimLen(w, SignByte(w), WORD_BYTES);
    if len < 8 {
      ShortRefused(w, r);
    } else if len == 8 {
      EightByteBack(w, r);
    } else {
      LongBack(w, r);
    }
  }

  lemma CompactForm(w: Bytes, r: Bytes)
    requires |w| == WORD_BYTES
    ensures var len := TrimLen(w, SignByte(w), WORD_BYTES);
            HeaderByte(w) % 64 == len && (HeaderByte(w) >= 0x80 <==> Negative(w))
            && Compact(w) + r == [HeaderByte(w)] + (w[..len] + r)
  {
    HeaderParts(TrimLen(w, SignByte(w), WORD_BYTES), Negative(w));
    Rejoin([HeaderByte(w)], w[..TrimLen(w, SignByte(w), WORD_BYTES)], r);
  }

  lemma Rejoin(a: Bytes, b: Bytes, r: Bytes)
    ensures a + b + r == a + (b + r)
  {
  }

  lemma ShortRefused(w: Bytes, r: Bytes)
    requires |w| == WORD_BYTES && TrimLen(w, SignByte(w), WORD_BYTES) < 8
    ensures DecodeIntX(Compact(w) + r).Refused?
  {
    CompactForm(w, r);
    DecodeIntXHeader(HeaderByte(w), w[..TrimLen(w, SignByte(w), WORD_BYTES)] + r);
  }

  lemma EightByteBack(w: Bytes, r: Bytes)
    requires |w| == WORD_BYTES && TrimLen(w, SignByte(w), WORD_BYTES) == 8
    ensures DecodeIntX(Compact(w) + r) == Got(Signed(w), r)
  {
    CompactForm(w, r);
    DecodeIntXHeader(HeaderByte(w), w[..8] + r);
    TakeBack(w[..8], r);
    EightByteWord(w);
  }

  lemma LongBack(w: Bytes, r: Bytes)
    requires |w| == WORD_BYTES && TrimLen(w, SignByte(w), WORD_BYTES) > 8
    ensures DecodeIntX(Compact(w) + r) == Got(Signed(w), r)
  {
    CompactForm(w, r);
    DecodeIntXHeader(HeaderByte(w), w[..TrimLen(w, SignByte(w), WORD_BYTES)] + r);
    CompactBody(w, r);
  }

  lemma DecodeIntXHeader(header: Byte, s: Bytes)
    ensures header % 64 < 8 ==> DecodeIntX([header] + s).Refused?
    ensures header % 64 == 8 && Take(8, s).Got? ==>
              var raw := Take(8, s).value;
              DecodeIntX([header] + s) == Got(
                if (header >= 0x80) == (Signed(raw) < 0) then Signed(raw) else Signed(Widen(raw, header >= 0x80)),
                Take(8, s).rest)
    ensures header % 64 > 8 ==> DecodeIntX([header] + s) == DecodeBigIntWith(header, s)
  {
    TakeBack([header], s);
  }

  lemma EightByteWord(w: Bytes)
    requires |w| == WORD_BYTES && TrimLen(w, SignByte(w), WORD_BYTES) == 8
    ensures Widen(w[..8], Negative(w)) == w
    ensures Negative(w) == (Signed(w[..8]) < 0) ==> Signed(w[..8]) == Signed(w)
  {
    WidenCompact(w);
    SignedSign(w[..8]);
    SignExtend(w[..8], WORD_BYTES - 8);
  }

  /**
    IntX reads back the signed 256-bit form of what was written, and it does so exactly for the
    numbers below 2^256 - 2^56: above them the header length drops under eight and is refused.
   */
  lemma IntXBack(v: int, r: Bytes)
    requires EncodeIntX(v).Some?
    ensures IntXReadable(v) ==> DecodeIntX(EncodeIntX(v).value + r) == Got(Reduce(v), r)
    ensures !IntXReadable(v) ==> DecodeIntX(EncodeIntX(v).value + r).Refused?
  {
    Pow256Grows(8, WORD_BYTES - 1);
    assert Pow256(WORD_BYTES) == 256 * Pow256(WORD_BYTES - 1) && Pow256(8) == 256 * Pow256(7);
    if FitsSigned(8, v) {
      IntXFastBack(v, r);
      ReduceIs(v);
    } else {
      assert v != 0 && FitsWord(v);
      WiderThanEight(v);
      IntXWordBack(LE(WORD_BYTES, v), r);
    }
  }

  lemma IntXMore(s: Bytes, t: Bytes)
    requires DecodeIntX(s).Got?
    ensures DecodeIntX(s + t) == Got(DecodeIntX(s).value, DecodeIntX(s).rest + t)
  {
    TakeMore(1, s, t);
    TakeMore(s[0] % 64, s[1..], t);
  }

  // ----- fixed-width fields -----

  type Bytes32 = s: Bytes | |s| == 32 witness seq(32, i => 0)
  type Bytes64 = s: Bytes | |s| == 64 witness seq(64, i => 0)

  function Decode32(s: Bytes): Read<Bytes32> {
    var (raw, rest) :- Take(32, s);
    Got(raw, rest)
  }

  function Decode64(s: Bytes): Read<Bytes64> {
    var (raw, rest) :- Take(64, s);
    Got(raw, rest)
  }

  /** A signed number in `w` bytes; wider numbers lose their high bytes, as a Rust cast does. */
  function EncodeInt(w: nat): int -> Option<Bytes> {
    v => Some(LE(w, v))
  }

  function DecodeInt(w: nat): Bytes -> Read<int> {
    s => DecodeIntAt(w, s)
  }

  function DecodeIntAt(w: nat, s: Bytes): Read<int> {
    var (raw, rest) :- Take(w, s);
    Got(Signed(raw), rest)
  }

  function DecodeUIntAt(w: nat, s: Bytes): (r: Read<int>)
    ensures r.Got? ==> 0 <= r.value < Pow256(w)
  {
    var (raw, rest) :- Take(w, s);
    Got(Unsigned(raw), rest)
  }

  /** What is left of a number after a cast to `w` signed bytes. */
  function Cast(w: nat): int -> int {
    v => Signed(LE(w, v))
  }

  lemma CastSame(w: nat, v: int)
    ensures LE(w, Cast(w)(v)) == LE(w, v) && Cast(w)(Cast(w)(v)) == Cast(w)(v)
  {
    LESigned(LE(w, v));
  }

  lemma IntBack(w: nat, v: int, r: Bytes)
    ensures DecodeInt(w)(LE(w, v) + r) == Got(Cast(w)(v), r)
  {
    TakeBack(LE(w, v), r);
  }

  lemma IntInverts(w: nat, v: int)
    ensures Inverts(EncodeInt(w), DecodeInt(w), Cast(w), v)
  {
    forall r: Bytes {
      IntBack(w, v, r);
    }
  }

  lemma UIntBack(w: nat, v: int, r: Bytes)
    requires 0 <= v < Pow256(w)
    ensures DecodeUIntAt(w, LE(w, v) + r) == Got(v, r)
  {
    TakeBack(LE(w, v), r);
    UnsignedLE(w, v);
  }

  lemma IntStable(w: nat)
    ensures Stable(DecodeInt(w))
  {
    forall s: Bytes, t: Bytes | Take(w, s).Got? {
      TakeMore(w, s, t);
    }
  }

  // ----- strings and byte arrays -----

  function EncodeSmall(s: Text): Option<Bytes> {
    if |s| <= 255 then Some([|s|] + s) else None
  }

  function DecodeSmall(s: Bytes): (r: Read<Text>)
    ensures r.Got? ==> |r.rest| < |s|
  {
    var (n, rest) :- Take(1, s);
    var (raw, rest') :- Take(n[0], rest);
    if ValidUtf8(raw) then Got(raw, rest') else Refused
  }

  lemma SmallBack(x: Text, r: Bytes)
    requires EncodeSmall(x).Some?
    ensures DecodeSmall(EncodeSmall(x).value + r) == Got(x, r)
  {
    var n: Byte := |x|;
    assert EncodeSmall(x).value + r == [n] + (x + r);
    TakeBack([n], x + r);
    TakeBack(x, r);
  }

  lemma SmallMore(s: Bytes, t: Bytes)
    requires DecodeSmall(s).Got?
    ensures DecodeSmall(s + t) == Got(DecodeSmall(s).value, DecodeSmall(s).rest + t)
  {
    TakeMore(1, s, t);
    TakeMore(s[0], s[1..], t);
  }

  function ZeroAt(s: Bytes): (n: nat)
    ensures n <= |s| && 0 !in s[..n]
    ensures n < |s| ==> s[n] == 0
  {
    if s == [] || s[0] == 0 then 0 else
      assert s[..1 + ZeroAt(s[1..])] == [s[0]] + s[1..][..ZeroAt(s[1..])];
      1 + ZeroAt(s[1..])
  }

  function EncodeZ(s: Text): Option<Bytes> {
    if 0 in s then None else Some(s + [0])
  }

  function DecodeZ(s: Bytes): (r: Read<Text>)
    ensures r.Got? ==> |r.rest| < |s|
  {
    var n := ZeroAt(s);
    if n == |s| || !ValidUtf8(s[..n]) then Refused else Got(s[..n], s[n + 1..])
  }

  lemma ZeroAtIs(x: Bytes, r: Bytes)
    requires 0 !in x
    ensures ZeroAt(x + [0] + r) == |x|
  {
    var s := x + [0] + r;
    var n := ZeroAt(s);
    assert s[|x|] == 0;
    assert forall i :: 0 <= i < |x| ==> s[i] == x[i];
    assert forall i :: 0 <= i < n ==> s[i] == s[..n][i] != 0;
  }

  lemma ZBack(x: Text, r: Bytes)
    requires EncodeZ(x).Some?
    ensures DecodeZ(EncodeZ(x).value + r) == Got(x, r)
  {
    ZeroAtIs(x, r);
    var s := x + [0] + r;
    assert s[..|x|] == x && s[|x| + 1..] == r;
  }

  lemma ZMore(s: Bytes, t: Bytes)
    requires DecodeZ(s).Got?
    ensures DecodeZ(s + t) == Got(DecodeZ(s).value, DecodeZ(s).rest + t)
  {
    var n := ZeroAt(s);
    assert s + t == s[..n] + [0] + (s[n + 1..] + t);
    ZeroAtIs(s[..n], s[n + 1..] + t);
    assert (s + t)[..n] == s[..n] && (s + t)[n + 1..] == s[n + 1..] + t;
  }

  function EncodeBlob(s: Bytes): Option<Bytes> {
    var head :- EncodeLen(|s|);
    Some(head + s)
  }

  function DecodeBlob(s: Bytes): (r: Read<Bytes>)
    ensures r.Got? ==> |r.rest| < |s|
  {
    var (n, rest) :- DecodeLenFor(1, s);
    Take(n, rest)
  }

  lemma BlobBack(x: Bytes, r: Bytes)
    requires |x| < MAX_LEN
    ensures EncodeBlob(x).Some? && DecodeBlob(EncodeBlob(x).value + r) == Got(x, r)
  {
    LenBack(|x|, 1, x + r);
    assert EncodeLen(|x|).value + x + r == EncodeLen(|x|).value + (x + r);
    TakeBack(x, r);
  }

  lemma BlobMore(s: Bytes, t: Bytes)
    requires DecodeBlob(s).Got?
    ensures DecodeBlob(s + t) == Got(DecodeBlob(s).value, DecodeBlob(s).rest + t)
  {
    LenMore(1, s, t);
    TakeMore(DecodeLenFor(1, s).value, DecodeLenFor(1, s).rest, t);
  }
}
