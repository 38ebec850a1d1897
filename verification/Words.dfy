/**
  Bytes, little-endian words and the two result types every codec here uses. Both wire formats of
  the SDK (the VM's and Carbon's) store numbers as little-endian two's complement.
 */
module Words {

  type Byte = b: int | 0 <= b < 256
  type Bytes = seq<Byte>
  type U32 = n: int | 0 <= n < 0x1_0000_0000
  type U64 = n: int | 0 <= n < 0x1_0000_0000_0000_0000
  type I64 = n: int | -0x8000_0000_0000_0000 <= n < 0x8000_0000_0000_0000

  /** A fallible result; the error text of the source is not part of the model. */
  datatype Option<+T> = None | Some(value: T) {
    predicate IsFailure() { None? }

    function PropagateFailure<U>(): Option<U>
      requires None?
    {
      None
    }

    function Extract(): T
      requires Some?
    {
      value
    }
  }

  /** What a reader makes of the unread bytes: a value and the bytes after it, or a refusal. */
  datatype Read<+T> = Refused | Got(value: T, rest: Bytes) {
    predicate IsFailure() { Refused? }

    function PropagateFailure<U>(): Read<U>
      requires Refused?
    {
      Refused
    }

    function Extract(): (T, Bytes)
      requires Got?
    {
      (value, rest)
    }
  }

  /** A reader method that answered `r` and left `left` unread did what the specification says. */
  predicate Follows<T(==)>(r: Option<T>, spec: Read<T>, left: Bytes) {
    if spec.Got? then r == Some(spec.value) && left == spec.rest else r.None?
  }

  // ----- loops that build a list -----

  /** A loop that has read `done` so far still owes the rest. */
  ghost function Ahead<T>(done: seq<T>, r: Read<seq<T>>): Read<seq<T>> {
    if r.Got? then Got(done + r.value, r.rest) else Refused
  }

  lemma AheadStart<T>(r: Read<seq<T>>)
    ensures Ahead([], r) == r
  {
    assert r.Got? ==> [] + r.value == r.value;
  }

  lemma AheadStep<T>(done: seq<T>, x: T, todo: Read<seq<T>>)
    ensures todo.Got? ==> Ahead(done, Got([x] + todo.value, todo.rest)) == Ahead(done + [x], todo)
  {
    assert todo.Got? ==> done + ([x] + todo.value) == done + [x] + todo.value;
  }

  /** The same for a loop that produces a list or fails. */
  ghost function Owing<T>(done: seq<T>, r: Option<seq<T>>): Option<seq<T>> {
    if r.None? then None else Some(done + r.value)
  }

  lemma OwingStart<T>(r: Option<seq<T>>)
    ensures Owing([], r) == r
  {
    assert r.Some? ==> [] + r.value == r.value;
  }

  lemma OwingStep<T>(done: seq<T>, more: seq<T>, r: Option<seq<T>>)
    ensures Owing(done, Owing(more, r)) == Owing(done + more, r)
  {
    assert r.Some? ==> done + (more + r.value) == done + more + r.value;
  }

  function Take(n: nat, s: Bytes): (r: Read<Bytes>)
    ensures r.Got? <==> n <= |s|
    ensures r.Got? ==> |r.value| == n && s == r.value + r.rest
  {
    if n <= |s| then Got(s[..n], s[n..]) else Refused
  }

  lemma TakeBack(a: Bytes, r: Bytes)
    ensures Take(|a|, a + r) == Got(a, r)
  {
    assert (a + r)[..|a|] == a && (a + r)[|a|..] == r;
  }

  lemma TakeMore(n: nat, s: Bytes, t: Bytes)
    requires Take(n, s).Got?
    ensures Take(n, s + t) == Got(Take(n, s).value, Take(n, s).rest + t)
  {
    assert (s + t)[..n] == s[..n] && (s + t)[n..] == s[n..] + t;
  }

  lemma Regroup(a: Bytes, b: Bytes, c: Bytes, r: Bytes)
    ensures a + b + c + r == a + (b + (c + r))
  {
  }

  function Fill(n: nat, b: Byte): (s: Bytes)
    ensures |s| == n
    ensures forall i :: 0 <= i < n ==> s[i] == b
  {
    seq(n, i => b)
  }

  // ----- powers of 256 -----

  function Pow256(n: nat): (p: int)
    ensures p > 0
  {
    if n == 0 then 1 else 256 * Pow256(n - 1)
  }

  lemma {:induction false} Pow256Grows(m: nat, n: nat)
    requires m <= n
    ensures Pow256(m) <= Pow256(n)
    decreases n
  {
    if m < n {
      Pow256Grows(m, n - 1);
    }
  }

  // ----- little-endian two's complement -----

  /** The low `n` bytes of the two's complement of `v`, least significant first. */
  function LE(n: nat, v: int): (s: Bytes)
    ensures |s| == n
    decreases n, v
  {
    if n == 0 then [] else [v % 256] + LE(n - 1, v / 256)
  }

  function Unsigned(s: Bytes): (v: int)
    ensures 0 <= v < Pow256(|s|)
  {
    if s == [] then 0 else s[0] + 256 * Unsigned(s[1..])
  }

  predicate Negative(s: Bytes) {
    s != [] && s[|s| - 1] >= 128
  }

  function Signed(s: Bytes): int {
    if Negative(s) then Unsigned(s) - Pow256(|s|) else Unsigned(s)
  }

  /** The word keeps its value up to a multiple of 256^n. */
  lemma {:induction false} LECongruent(n: nat, v: int) returns (k: int)
    ensures Unsigned(LE(n, v)) == v + k * Pow256(n)
    decreases n
  {
    if n == 0 {
      k := -v;
    } else {
      k := LECongruent(n - 1, v / 256);
      assert LE(n, v)[1..] == LE(n - 1, v / 256);
      assert 256 * (v / 256 + k * Pow256(n - 1)) == 256 * (v / 256) + k * Pow256(n);
    }
  }

  lemma UnsignedLE(n: nat, v: int)
    requires 0 <= v < Pow256(n)
    ensures Unsigned(LE(n, v)) == v
  {
    var k := LECongruent(n, v);
    MultipleOf(k, Pow256(n), Unsigned(LE(n, v)) - v);
  }

  lemma UnsignedLENegative(n: nat, v: int)
    requires -Pow256(n) <= v < 0
    ensures Unsigned(LE(n, v)) == v + Pow256(n)
  {
    var k := LECongruent(n, v);
    var p := Pow256(n);
    assert Unsigned(LE(n, v)) - (v + p) == (k - 1) * p;
    MultipleOf(k - 1, p, Unsigned(LE(n, v)) - (v + p));
  }

  lemma MultipleOf(k: int, p: int, d: int)
    requires p > 0 && d == k * p && -p < d < p
    ensures k == 0 && d == 0
  {
    AtLeast(k, p);
    AtLeast(-k, p);
  }

  lemma AtLeast(k: int, p: int)
    requires p > 0
    ensures k >= 1 ==> k * p >= p
  {
  }

  lemma LEStep(n: nat, b: Byte, q: int, v: int)
    requires n > 0 && v == b + 256 * q
    ensures LE(n, v) == [b] + LE(n - 1, q)
  {
    assert v % 256 == b && v / 256 == q;
  }

  lemma {:induction false} LEUnsigned(s: Bytes, k: int, v: int)
    requires v == Unsigned(s) + k * Pow256(|s|)
    ensures LE(|s|, v) == s
  {
    if s != [] {
      var q := Unsigned(s[1..]) + k * Pow256(|s| - 1);
      LEUnsigned(s[1..], k, q);
      WordStep(s[0], Unsigned(s[1..]), k, Pow256(|s| - 1), Pow256(|s|));
      LEStep(|s|, s[0], q, v);
      assert s == [s[0]] + s[1..];
    }
  }

  lemma WordStep(b: int, u: int, k: int, p: int, next: int)
    requires next == 256 * p
    ensures b + 256 * (u + k * p) == b + 256 * u + k * next
    ensures b + 256 * (u + p * k) == b + 256 * u + next * k
  {
  }

  /** Writing a word's signed value gives the word back. */
  lemma LESigned(s: Bytes)
    ensures LE(|s|, Signed(s)) == s
  {
    LEUnsigned(s, if Negative(s) then -1 else 0, Signed(s));
  }

  lemma {:induction false} TopByte(s: Bytes)
    requires s != []
    ensures Negative(s) <==> 2 * Unsigned(s) >= Pow256(|s|)
  {
    if |s| > 1 {
      TopByte(s[1..]);
      assert Negative(s) <==> Negative(s[1..]);
      EvenPow(|s| - 1);
      TopStep(s[0], Unsigned(s[1..]), Pow256(|s| - 1));
    } else {
      assert Unsigned(s[1..]) == 0;
      assert Pow256(1) == 256 * Pow256(0);
    }
  }

  lemma TopStep(b: Byte, u: int, p: int)
    requires p % 2 == 0
    ensures 2 * (b + 256 * u) >= 256 * p <==> 2 * u >= p
  {
  }

  lemma EvenPow(n: nat)
    requires n > 0
    ensures Pow256(n) % 2 == 0
  {
    assert Pow256(n) == 2 * (128 * Pow256(n - 1));
  }

  predicate FitsSigned(n: nat, v: int) {
    -Pow256(n) <= 2 * v < Pow256(n)
  }

  /** A number that fits the word survives it. */
  lemma SignedLE(n: nat, v: int)
    requires n > 0 && FitsSigned(n, v)
    ensures Signed(LE(n, v)) == v
  {
    TopByte(LE(n, v));
    if v >= 0 {
      UnsignedLE(n, v);
    } else {
      UnsignedLENegative(n, v);
    }
  }

  lemma SignedFits(s: Bytes)
    requires s != []
    ensures FitsSigned(|s|, Signed(s))
  {
    TopByte(s);
  }

  lemma SignedSign(s: Bytes)
    ensures Signed(s) < 0 <==> Negative(s)
  {
  }

  // ----- padding -----

  lemma {:induction false} UnsignedConcat(a: Bytes, b: Bytes)
    ensures Unsigned(a + b) == Unsigned(a) + Pow256(|a|) * Unsigned(b)
  {
    if a == [] {
      assert a + b == b;
    } else {
      UnsignedConcat(a[1..], b);
      assert (a + b)[1..] == a[1..] + b;
      WordStep(a[0], Unsigned(a[1..]), Unsigned(b), Pow256(|a| - 1), Pow256(|a|));
    }
  }

  lemma {:induction false} Pow256Add(m: nat, n: nat, size: nat)
    requires size == m + n
    ensures Pow256(size) == Pow256(m) * Pow256(n)
  {
    if m > 0 {
      Pow256Add(m - 1, n, size - 1);
      WordStep(0, 0, Pow256(n), Pow256(m - 1), Pow256(m));
    } else {
      assert m == 0 && size == n;
    }
  }

  lemma {:induction false} UnsignedFill(n: nat, negative: bool)
    ensures Unsigned(Fill(n, if negative then 0xFF else 0)) == if negative then Pow256(n) - 1 else 0
  {
    if n > 0 {
      UnsignedFill(n - 1, negative);
      var b: Byte := if negative then 0xFF else 0;
      assert Fill(n, b)[1..] == Fill(n - 1, b);
    }
  }

  lemma Distribute(p: int, q: int)
    ensures p * (q - 1) == p * q - p
  {
  }

  lemma PaddedUnsigned(raw: Bytes, n: nat, negative: bool, word: Bytes)
    requires word == raw + Fill(n, if negative then 0xFF else 0)
    ensures Unsigned(word) == if negative then Unsigned(raw) + Pow256(|word|) - Pow256(|raw|) else Unsigned(raw)
  {
    var b: Byte := if negative then 0xFF else 0;
    UnsignedConcat(raw, Fill(n, b));
    UnsignedFill(n, negative);
    if negative {
      Pow256Add(|raw|, n, |word|);
      Distribute(Pow256(|raw|), Pow256(n));
    }
  }

  /** Filling a word up with one sign byte moves only the weight of its sign. */
  lemma PaddedValue(raw: Bytes, n: nat, negative: bool)
    requires n > 0
    ensures Signed(raw + Fill(n, if negative then 0xFF else 0)) == if negative then Unsigned(raw) - Pow256(|raw|) else Unsigned(raw)
  {
    PaddedUnsigned(raw, n, negative, raw + Fill(n, if negative then 0xFF else 0));
    PaddedSign(raw, n, if negative then 0xFF else 0);
  }

  lemma PaddedSign(raw: Bytes, n: nat, b: Byte)
    requires n > 0
    ensures Negative(raw + Fill(n, b)) <==> b >= 128
  {
    var word := raw + Fill(n, b);
    assert word[|word| - 1] == b;
  }

  /** Sign extension keeps the value. */
  lemma SignExtend(raw: Bytes, n: nat)
    requires raw != []
    ensures Signed(raw + Fill(n, if Negative(raw) then 0xFF else 0)) == Signed(raw)
  {
    if n == 0 {
      assert raw + Fill(n, if Negative(raw) then 0xFF else 0) == raw;
    } else {
      PaddedValue(raw, n, Negative(raw));
    }
  }

  // ----- UTF-8 (section 4 of RFC 3629) -----

  predicate Tail(b: Byte) { 0x80 <= b <= 0xBF }

  /** Length of the well-formed character `s` starts with, 0 when there is none. */
  function Utf8Head(s: Bytes): (n: nat)
    ensures n <= 4 && n <= |s|
  {
    if s == [] then 0
    else if s[0] <= 0x7F then 1
    else if |s| >= 2 && 0xC2 <= s[0] <= 0xDF && Tail(s[1]) then 2
    else if |s| >= 3 && 0xE0 <= s[0] <= 0xEF && Tail(s[1]) && Tail(s[2])
            && (s[0] == 0xE0 ==> s[1] >= 0xA0) && (s[0] == 0xED ==> s[1] <= 0x9F) then 3
    else if |s| >= 4 && 0xF0 <= s[0] <= 0xF4 && Tail(s[1]) && Tail(s[2]) && Tail(s[3])
            && (s[0] == 0xF0 ==> s[1] >= 0x90) && (s[0] == 0xF4 ==> s[1] <= 0x8F) then 4
    else 0
  }

  /** A code point that is not a surrogate. */
  predicate Scalar(c: int) {
    0 <= c < 0xD800 || 0xE000 <= c < 0x11_0000
  }

  function Utf8(c: int): (s: Bytes)
    requires Scalar(c)
    ensures 1 <= |s| <= 4
  {
    if c < 0x80 then [c]
    else if c < 0x800 then [0xC0 + c / 64, 0x80 + c % 64]
    else if c < 0x1_0000 then [0xE0 + c / 4096, 0x80 + c / 64 % 64, 0x80 + c % 64]
    else [0xF0 + c / 262144, 0x80 + c / 4096 % 64, 0x80 + c / 64 % 64, 0x80 + c % 64]
  }

  /** Where a character stands, its length is found. */
  lemma Utf8Found(c: int, r: Bytes)
    requires Scalar(c)
    ensures Utf8Head(Utf8(c) + r) == |Utf8(c)|
  {
  }

  lemma Utf8Two(a: Byte, b: Byte) returns (c: int)
    requires 0xC2 <= a <= 0xDF && Tail(b)
    ensures Scalar(c) && Utf8(c) == [a, b]
  {
    c := (a - 0xC0) * 64 + (b - 0x80);
  }

  lemma Utf8Three(a: Byte, b: Byte, d: Byte) returns (c: int)
    requires 0xE0 <= a <= 0xEF && Tail(b) && Tail(d) && (a == 0xE0 ==> b >= 0xA0) && (a == 0xED ==> b <= 0x9F)
    ensures Scalar(c) && Utf8(c) == [a, b, d]
  {
    c := (a - 0xE0) * 4096 + (b - 0x80) * 64 + (d - 0x80);
    assert c / 64 == (a - 0xE0) * 64 + (b - 0x80) && c / 4096 == a - 0xE0;
  }

  lemma Utf8Four(a: Byte, b: Byte, d: Byte, e: Byte) returns (c: int)
    requires 0xF0 <= a <= 0xF4 && Tail(b) && Tail(d) && Tail(e) && (a == 0xF0 ==> b >= 0x90) && (a == 0xF4 ==> b <= 0x8F)
    ensures Scalar(c) && Utf8(c) == [a, b, d, e]
  {
    c := (a - 0xF0) * 262144 + (b - 0x80) * 4096 + (d - 0x80) * 64 + (e - 0x80);
    assert c / 64 == (a - 0xF0) * 4096 + (b - 0x80) * 64 + (d - 0x80);
    assert c / 4096 == (a - 0xF0) * 64 + (b - 0x80) && c / 262144 == a - 0xF0;
  }

  /** What is accepted at the head of a string is the encoding of a character. */
  lemma Utf8HeadIsCharacter(s: Bytes) returns (c: int)
    requires Utf8Head(s) > 0
    ensures Scalar(c) && Utf8(c) == s[..Utf8Head(s)]
  {
    var n := Utf8Head(s);
    if n == 1 {
      c := s[0];
    } else if n == 2 {
      c := Utf8Two(s[0], s[1]);
    } else if n == 3 {
      c := Utf8Three(s[0], s[1], s[2]);
    } else {
      c := Utf8Four(s[0], s[1], s[2], s[3]);
    }
  }

  ghost function Utf8All(cs: seq<int>): Bytes
    requires forall c :: c in cs ==> Scalar(c)
  {
    if cs == [] then [] else Utf8(cs[0]) + Utf8All(cs[1..])
  }

  /** A byte string is text when it is the encoding of some characters. */
  lemma {:induction false} TextIsCharacters(s: Bytes) returns (cs: seq<int>)
    requires ValidUtf8(s)
    ensures (forall c :: c in cs ==> Scalar(c)) && Utf8All(cs) == s
    decreases |s|
  {
    if s == [] {
      cs := [];
    } else {
      var n := Utf8Head(s);
      var c := Utf8HeadIsCharacter(s);
      var rest := TextIsCharacters(s[n..]);
      cs := [c] + rest;
      assert cs[1..] == rest && s == s[..n] + s[n..];
    }
  }

  /** And the encoding of any characters is text. */
  lemma {:induction false} CharactersAreText(cs: seq<int>)
    requires forall c :: c in cs ==> Scalar(c)
    ensures ValidUtf8(Utf8All(cs))
  {
    if cs != [] {
      var rest := Utf8All(cs[1..]);
      CharactersAreText(cs[1..]);
      Utf8Found(cs[0], rest);
      assert (Utf8(cs[0]) + rest)[|Utf8(cs[0])|..] == rest;
    }
  }

  /** The bytes Rust accepts as a string. */
  predicate ValidUtf8(s: Bytes) {
    s == [] || (Utf8Head(s) > 0 && ValidUtf8(s[Utf8Head(s)..]))
  }

  /** A Rust `String`, as its UTF-8 bytes. */
  type Text = s: Bytes | ValidUtf8(s) witness []
}
