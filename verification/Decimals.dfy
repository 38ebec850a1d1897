/** Printing an integer amount with a number of decimals. */
module Decimals {

  predicate IsDigit(c: char) { '0' <= c <= '9' }
  predicate Digits(s: string) { forall c <- s :: IsDigit(c) }

  function TrimLeft(s: string, c: char): (r: string)
    ensures |r| <= |s| && s[|s| - |r|..] == r && (r != "" ==> r[0] != c)
    ensures forall i :: 0 <= i < |s| - |r| ==> s[i] == c
  {
    if s != "" && s[0] == c then TrimLeft(s[1..], c) else s
  }

  function TrimRight(s: string, c: char): (r: string)
    ensures |r| <= |s| && s[..|r|] == r && (r != "" ==> r[|r| - 1] != c)
    ensures forall i :: |r| <= i < |s| ==> s[i] == c
  {
    if s != "" && s[|s| - 1] == c then TrimRight(s[..|s| - 1], c) else s
  }

  function Zeros(n: nat): (r: string)
    ensures |r| == n && forall i :: 0 <= i < n ==> r[i] == '0'
  {
    seq(n, i => '0')
  }

  /** At least one digit more than there are decimals. */
  function Padded(digits: string, decimals: nat): (r: string)
    ensures |r| > decimals
  {
    var some := if digits == "" then "0" else digits;
    if |some| <= decimals then Zeros(decimals + 1 - |some|) + some else some
  }

  function Whole(digits: string, decimals: nat): string {
    Padded(digits, decimals)[..|Padded(digits, decimals)| - decimals]
  }

  function Fraction(digits: string, decimals: nat): string {
    TrimRight(Padded(digits, decimals)[|Padded(digits, decimals)| - decimals..], '0')
  }

  function Join(whole: string, fraction: string): string {
    if fraction == "" then whole else whole + "." + fraction
  }

  /** The digits put around the decimal point, without trailing zeros behind it. */
  function Body(digits: string, decimals: nat): string {
    Join(Whole(digits, decimals), Fraction(digits, decimals))
  }

  function Negative(amount: string): bool {
    amount != "" && amount[0] == '-'
  }

  function Significant(amount: string): string {
    TrimLeft(TrimLeft(amount, '-'), '0')
  }

  function ConvertDecimals(amount: string, decimals: nat): string {
    if decimals == 0 then amount else
      Signed(Negative(amount), Body(Significant(amount), decimals))
  }

  /** The minus sign, unless the value is zero. */
  function Signed(negative: bool, value: string): string {
    if negative && value != "0" then "-" + value else value
  }

  // ----- what the strings mean -----

  function Pow10(n: nat): (p: int)
    ensures p > 0
  {
    if n == 0 then 1 else 10 * Pow10(n - 1)
  }

  /** `m` times ten to the `k`. */
  function Scale(m: int, k: nat): int {
    if k == 0 then m else 10 * Scale(m, k - 1)
  }

  lemma {:induction false} ScaleIs(m: int, k: nat)
    ensures Scale(m, k) == m * Pow10(k)
  {
    if k > 0 {
      ScaleIs(m, k - 1);
      assert 10 * (m * Pow10(k - 1)) == m * (10 * Pow10(k - 1));
    }
  }

  lemma {:induction false} ScaleSign(m: int, k: nat)
    ensures Scale(-m, k) == -Scale(m, k) && (Scale(m, k) == 0 <==> m == 0)
  {
    if k > 0 {
      ScaleSign(m, k - 1);
    }
  }

  function Digit(c: char): int { c as int - '0' as int }

  function DigitsValue(s: string): int {
    if s == "" then 0 else 10 * DigitsValue(s[..|s| - 1]) + Digit(s[|s| - 1])
  }

  /** An optionally signed digit string. */
  predicate Amount(s: string) {
    Digits(if Negative(s) then s[1..] else s)
  }

  function Value(s: string): int
    requires Amount(s)
  {
    if Negative(s) then -DigitsValue(s[1..]) else DigitsValue(s)
  }

  /** What stands before and after the first decimal point. */
  function Split(s: string): (string, string) {
    if s == "" then ("", "") else if s[0] == '.' then ("", s[1..]) else
      var (whole, fraction) := Split(s[1..]);
      ([s[0]] + whole, fraction)
  }

  /** A decimal number: a mantissa and how many of its digits stand after the point. */
  datatype Number = Number(mantissa: int, places: nat)

  function Unsigned(s: string): string { if Negative(s) then s[1..] else s }

  function Parse(s: string): Number {
    var (whole, fraction) := Split(Unsigned(s));
    var m := DigitsValue(whole + fraction);
    Number(if Negative(s) then -m else m, |fraction|)
  }

  /** One digit or no leading zero, no trailing zero behind a point, and no negative zero. */
  predicate Canonical(s: string) {
    var (whole, fraction) := Split(Unsigned(s));
    Unsigned(s) == Join(whole, fraction) && Tidy(whole, fraction) && (Negative(s) ==> DigitsValue(whole + fraction) != 0)
  }

  predicate Tidy(whole: string, fraction: string) {
    Digits(whole) && Digits(fraction) && whole != "" && (|whole| > 1 ==> whole[0] != '0')
    && (fraction != "" ==> fraction[|fraction| - 1] != '0')
  }

  // ----- values of digit strings -----

  /** Zeros in front add nothing. */
  lemma {:induction false} LeadingZeros(zeros: string, s: string)
    requires forall i :: 0 <= i < |zeros| ==> zeros[i] == '0'
    ensures DigitsValue(zeros + s) == DigitsValue(s)
  {
    if s != "" {
      LeadingZeros(zeros, s[..|s| - 1]);
      assert (zeros + s)[..|zeros + s| - 1] == zeros + s[..|s| - 1];
    } else if zeros != "" {
      assert zeros + s == zeros;
      var fewer := zeros[..|zeros| - 1];
      LeadingZeros(fewer, "");
      assert fewer + "" == fewer;
    }
  }

  /** Each zero behind multiplies by ten. */
  lemma {:induction false} TrailingZeros(s: string, zeros: string)
    requires forall i :: 0 <= i < |zeros| ==> zeros[i] == '0'
    ensures DigitsValue(s + zeros) == Scale(DigitsValue(s), |zeros|)
  {
    if zeros == "" {
      assert s + zeros == s;
    } else {
      var fewer := zeros[..|zeros| - 1];
      TrailingZeros(s, fewer);
      assert (s + zeros)[..|s + zeros| - 1] == s + fewer;
    }
  }

  lemma {:induction false} ValueNonNegative(s: string)
    requires Digits(s)
    ensures DigitsValue(s) >= 0
    ensures (exists i :: 0 <= i < |s| && s[i] != '0') ==> DigitsValue(s) > 0
  {
    if s != "" {
      assert s[|s| - 1] in s;
      ValueNonNegative(s[..|s| - 1]);
    }
  }

  /** Without leading zeros, a value has one digit string. */
  lemma {:induction false} DigitsUnique(s: string, t: string)
    requires Digits(s) && Digits(t) && DigitsValue(s) == DigitsValue(t)
    requires (s != "" ==> s[0] != '0') && (t != "" ==> t[0] != '0')
    ensures s == t
  {
    ValueNonNegative(s);
    ValueNonNegative(t);
    if s != "" && t != "" {
      var a, b := s[..|s| - 1], t[..|t| - 1];
      assert s[|s| - 1] in s && t[|t| - 1] in t;
      assert s == a + [s[|s| - 1]] && t == b + [t[|t| - 1]];
      DigitsUnique(a, b);
    }
  }

  lemma TrimmedValue(s: string)
    requires Digits(s)
    ensures Digits(TrimLeft(s, '0')) && DigitsValue(TrimLeft(s, '0')) == DigitsValue(s)
  {
    var r := TrimLeft(s, '0');
    var zeros := s[..|s| - |r|];
    assert s == zeros + r;
    LeadingZeros(zeros, r);
  }

  lemma SignificantValue(amount: string)
    requires Amount(amount)
    ensures Digits(Significant(amount)) && DigitsValue(Significant(amount)) == if Negative(amount) then -Value(amount) else Value(amount)
    ensures Significant(amount) != "" ==> Significant(amount)[0] != '0'
  {
    var digits := Unsigned(amount);
    assert digits != "" ==> digits[0] in digits;
    assert TrimLeft(digits, '-') == digits;
    assert TrimLeft(amount, '-') == digits;
    TrimmedValue(digits);
  }

  // ----- the body -----

  lemma {:induction false} SplitPoint(whole: string, fraction: string)
    requires Digits(whole)
    ensures Split(whole + "." + fraction) == (whole, fraction) && Split(whole) == (whole, "")
  {
    if whole == "" {
      assert "" + "." + fraction == "." + fraction && ("." + fraction)[1..] == fraction;
    } else {
      assert whole[0] in whole;
      assert (whole + "." + fraction)[1..] == whole[1..] + "." + fraction;
      SplitPoint(whole[1..], fraction);
      assert [whole[0]] + whole[1..] == whole;
    }
  }

  lemma PaddedValue(digits: string, decimals: nat)
    requires Digits(digits)
    ensures Digits(Padded(digits, decimals)) && DigitsValue(Padded(digits, decimals)) == DigitsValue(digits)
  {
    var some := if digits == "" then "0" else digits;
    assert digits == "" ==> some[..0] == "" && DigitsValue(some) == 0;
    if |some| <= decimals {
      LeadingZeros(Zeros(decimals + 1 - |some|), some);
    }
  }

  lemma CutZeros(whole: string, tail: string)
    requires Digits(tail)
    ensures var fraction := TrimRight(tail, '0');
            Digits(fraction) && Scale(DigitsValue(whole + fraction), |tail| - |fraction|) == DigitsValue(whole + tail)
  {
    var fraction := TrimRight(tail, '0');
    var zeros := tail[|fraction|..];
    assert tail == fraction + zeros && whole + tail == whole + fraction + zeros;
    TrailingZeros(whole + fraction, zeros);
  }

  predicate NoLeadingZero(digits: string) {
    Digits(digits) && (digits != "" ==> digits[0] != '0')
  }

  lemma PiecesTidy(digits: string, decimals: nat)
    requires decimals >= 1 && NoLeadingZero(digits)
    ensures Tidy(Whole(digits, decimals), Fraction(digits, decimals))
  {
    var padded := Padded(digits, decimals);
    PaddedValue(digits, decimals);
    CutZeros("", padded[|padded| - decimals..]);
  }

  lemma PiecesValue(digits: string, decimals: nat)
    requires Digits(digits)
    ensures |Fraction(digits, decimals)| <= decimals
    ensures Scale(DigitsValue(Whole(digits, decimals) + Fraction(digits, decimals)), decimals - |Fraction(digits, decimals)|)
         == DigitsValue(digits)
  {
    var padded := Padded(digits, decimals);
    PaddedValue(digits, decimals);
    var whole, tail := padded[..|padded| - decimals], padded[|padded| - decimals..];
    assert padded == whole + tail && |tail| == decimals;
    CutZeros(whole, tail);
  }

  // ----- reading the output back -----

  lemma Reads(whole: string, fraction: string)
    requires Tidy(whole, fraction)
    ensures !Negative(Join(whole, fraction)) && Split(Join(whole, fraction)) == (whole, fraction)
  {
    assert whole[0] in whole;
    SplitPoint(whole, fraction);
  }

  /** `out` is canonical and denotes v / 10^decimals: its mantissa, scaled back up, is `v`. */
  predicate Denotes(out: string, decimals: nat, v: int) {
    Canonical(out) && Parse(out).places <= decimals && Scale(Parse(out).mantissa, decimals - Parse(out).places) == v
  }

  lemma JoinDenotes(whole: string, fraction: string, decimals: nat, v: int)
    requires Tidy(whole, fraction) && |fraction| <= decimals
    requires Scale(DigitsValue(whole + fraction), decimals - |fraction|) == v
    ensures Denotes(Join(whole, fraction), decimals, v)
  {
    Reads(whole, fraction);
  }

  lemma SignedJoinDenotes(whole: string, fraction: string, decimals: nat, v: int)
    requires Tidy(whole, fraction) && |fraction| <= decimals && DigitsValue(whole + fraction) != 0
    requires Scale(DigitsValue(whole + fraction), decimals - |fraction|) == v
    ensures Denotes("-" + Join(whole, fraction), decimals, -v)
  {
    Reads(whole, fraction);
    assert ("-" + Join(whole, fraction))[1..] == Join(whole, fraction);
    ScaleSign(DigitsValue(whole + fraction), decimals - |fraction|);
  }

  /** Tidy pieces are zero only as "0". */
  lemma ZeroPieces(whole: string, fraction: string)
    requires Tidy(whole, fraction)
    ensures DigitsValue(whole + fraction) == 0 <==> Join(whole, fraction) == "0"
  {
    var all := whole + fraction;
    ValueNonNegative(all);
    if fraction != "" {
      assert all[|all| - 1] != '0';
      assert |Join(whole, fraction)| > 1;
    } else if whole == "0" {
      LeadingZeros(all, "");
      assert all + "" == all;
    } else {
      assert |whole| == 1 ==> whole == [whole[0]];
      assert all[0] != '0';
    }
  }

  /** The output is canonical and denotes exactly amount / 10^decimals. */
  lemma DenotesAmount(amount: string, decimals: nat)
    requires decimals >= 1 && Amount(amount)
    ensures Denotes(ConvertDecimals(amount, decimals), decimals, Value(amount))
  {
    SignificantValue(amount);
    SignedBodyDenotes(Negative(amount), Significant(amount), decimals, Value(amount));
  }

  lemma SignedBodyDenotes(negative: bool, digits: string, decimals: nat, v: int)
    requires decimals >= 1 && NoLeadingZero(digits) && v == if negative then -DigitsValue(digits) else DigitsValue(digits)
    ensures Denotes(Signed(negative, Body(digits, decimals)), decimals, v)
  {
    var whole, fraction := Whole(digits, decimals), Fraction(digits, decimals);
    PiecesTidy(digits, decimals);
    PiecesValue(digits, decimals);
    ZeroPieces(whole, fraction);
    ScaleSign(DigitsValue(whole + fraction), decimals - |fraction|);
    if negative && Join(whole, fraction) != "0" {
      SignedJoinDenotes(whole, fraction, decimals, DigitsValue(digits));
    } else {
      JoinDenotes(whole, fraction, decimals, DigitsValue(digits));
    }
  }

  /** With no decimals the amount is printed as it is, leading zeros and all, and reads as itself. */
  lemma PlainAmount(amount: string)
    requires Amount(amount)
    ensures ConvertDecimals(amount, 0) == amount && Parse(ConvertDecimals(amount, 0)) == Number(Value(amount), 0)
  {
    var digits := Unsigned(amount);
    SplitPoint(digits, "");
    assert digits + "" == digits;
  }

  /** The number, scaled up by its missing places, is `v`. */
  predicate Times(n: Number, decimals: nat, v: int) {
    n.places <= decimals && n.mantissa * Pow10(decimals - n.places) == v
  }

  lemma TimesScale(n: Number, decimals: nat, v: int)
    requires n.places <= decimals && Scale(n.mantissa, decimals - n.places) == v
    ensures Times(n, decimals, v)
  {
    ScaleIs(n.mantissa, decimals - n.places);
  }

  /** Whatever the decimals, the output reads as amount / 10^decimals. */
  lemma ReadsAsAmount(amount: string, decimals: nat)
    requires Amount(amount)
    ensures Times(Parse(ConvertDecimals(amount, decimals)), decimals, Value(amount))
  {
    if decimals == 0 {
      PlainAmount(amount);
      TimesScale(Number(Value(amount), 0), 0, Value(amount));
    } else {
      DenotesAmount(amount, decimals);
      TimesScale(Parse(ConvertDecimals(amount, decimals)), decimals, Value(amount));
    }
  }

  /** The digits of a number, as an amount is written. */
  function Print(n: nat): (s: string)
    ensures s != ""
  {
    var last := (n % 10 + '0' as int) as char;
    if n < 10 then [last] else Print(n / 10) + [last]
  }

  lemma {:induction false} PrintedValue(n: nat)
    ensures Digits(Print(n)) && DigitsValue(Print(n)) == n
  {
    var s, last := Print(n), (n % 10 + '0' as int) as char;
    assert s[|s| - 1] == last;
    if n < 10 {
      assert s[..0] == "";
    } else {
      PrintedValue(n / 10);
      assert s[..|s| - 1] == Print(n / 10);
    }
  }

  /** Every integer is an amount, written in digits behind its sign. */
  lemma EveryAmount(v: int)
    ensures var s := if v < 0 then "-" + Print(-v) else Print(v); Amount(s) && Value(s) == v
  {
    if v < 0 {
      PrintedValue(-v);
      assert ("-" + Print(-v))[1..] == Print(-v);
    } else {
      PrintedValue(v);
      assert Print(v)[0] in Print(v);
    }
  }

  lemma DenotesOne(out: string, decimals: nat, v: int, w: int)
    requires Denotes(out, decimals, v) && Denotes(out, decimals, w)
    ensures v == w
  {
  }

  /** Equal outputs mean equal amounts, and equal amounts print alike. */
  lemma OutputsDecide(a: string, b: string, decimals: nat)
    requires decimals >= 1 && Amount(a) && Amount(b)
    ensures ConvertDecimals(a, decimals) == ConvertDecimals(b, decimals) <==> Value(a) == Value(b)
  {
    if Value(a) == Value(b) {
      SamePrint(a, b, decimals);
    } else if ConvertDecimals(a, decimals) == ConvertDecimals(b, decimals) {
      DenotesAmount(a, decimals);
      DenotesAmount(b, decimals);
      DenotesOne(ConvertDecimals(a, decimals), decimals, Value(a), Value(b));
    }
  }

  lemma SamePrint(a: string, b: string, decimals: nat)
    requires decimals >= 1 && Amount(a) && Amount(b) && Value(a) == Value(b)
    ensures ConvertDecimals(a, decimals) == ConvertDecimals(b, decimals)
  {
    SameSignificant(a, b);
    if Negative(a) != Negative(b) {
      ZeroPrints(decimals);
    }
  }

  lemma ZeroPrints(decimals: nat)
    requires decimals >= 1
    ensures Body("", decimals) == "0"
  {
    var whole, fraction := Whole("", decimals), Fraction("", decimals);
    PiecesTidy("", decimals);
    PiecesValue("", decimals);
    ScaleSign(DigitsValue(whole + fraction), decimals - |fraction|);
    ZeroPieces(whole, fraction);
  }

  lemma SameSignificant(a: string, b: string)
    requires Amount(a) && Amount(b) && Value(a) == Value(b)
    ensures Significant(a) == Significant(b)
    ensures Negative(a) != Negative(b) ==> Significant(a) == ""
  {
    SignificantValue(a);
    SignificantValue(b);
    ValueNonNegative(Significant(a));
    ValueNonNegative(Significant(b));
    DigitsUnique(Significant(a), Significant(b));
    if Negative(a) != Negative(b) {
      DigitsUnique(Significant(a), "");
    }
  }
}
