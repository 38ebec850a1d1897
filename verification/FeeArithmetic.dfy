/** Saturating sums and the chain's fee scaling. */
module FeeArithmetic {
  import opened Words

  const U64_MAX: nat := 0xFFFF_FFFF_FFFF_FFFF
  const U32_MAX: nat := 0xFFFF_FFFF

  function Sat(limit: nat, n: nat): (r: nat)
    ensures r <= limit && r <= n
  {
    if n < limit then n else limit
  }

  function Sat64(n: nat): (r: U64) {
    Sat(U64_MAX, n)
  }

  function Sat32(n: nat): (r: U32) {
    Sat(U32_MAX, n)
  }

  function SatSub(a: nat, b: nat): nat {
    if a > b then a - b else 0
  }

  function Max(a: nat, b: nat): nat {
    if a > b then a else b
  }

  function Pow2(n: nat): (p: nat)
    ensures p > 0
    decreases n
  {
    if n == 0 then 1 else 2 * Pow2(n - 1)
  }

  function Scale(value: nat, m: nat, d: nat): nat
    requires d > 0
  {
    Product(value, m);
    (value * m) / d
  }

  lemma Product(a: nat, b: nat)
    ensures a * b >= 0
  {
  }

  /** `(value * multiplier) >> shift`, saturating; a shift of 64 or more clamps to zero. */
  function MulShift(value: nat, multiplier: U64, shift: Byte): (r: U64) {
    if shift >= 64 then 0 else Sat64(Scale(value, multiplier, Pow2(shift)))
  }

  // ----- monotonicity -----

  lemma DivMonotone(a: nat, b: nat, d: nat)
    requires a <= b && d > 0
    ensures a / d <= b / d
  {
    AtLeast(a / d - b / d, d);
    assert d * (a / d - b / d) == (a - a % d) - (b - b % d);
  }

  lemma MulMonotone(a: nat, b: nat, m: nat)
    requires a <= b
    ensures a * m <= b * m
  {
  }

  lemma MulShiftMonotone(a: nat, b: nat, multiplier: U64, shift: Byte)
    requires a <= b
    ensures MulShift(a, multiplier, shift) <= MulShift(b, multiplier, shift)
  {
    ScaleMonotone(a, b, multiplier, Pow2(shift));
  }

  lemma ScaleMonotone(a: nat, b: nat, m: nat, d: nat)
    requires a <= b && d > 0
    ensures Scale(a, m, d) <= Scale(b, m, d)
  {
    Product(a, m);
    MulMonotone(a, b, m);
    DivMonotone(a * m, b * m, d);
  }

  // ----- scaling charge by charge, as the chain does, against scaling their sum -----

  function Sum(xs: seq<nat>): nat {
    if xs == [] then 0 else xs[0] + Sum(xs[1..])
  }

  function Scaled(xs: seq<nat>, multiplier: U64, shift: Byte): (r: seq<nat>)
    ensures |r| == |xs|
  {
    if xs == [] then [] else [MulShift(xs[0], multiplier, shift)] + Scaled(xs[1..], multiplier, shift)
  }

  function Floors(xs: seq<nat>, m: nat, d: nat): nat
    requires d > 0
  {
    if xs == [] then 0 else Scale(xs[0], m, d) + Floors(xs[1..], m, d)
  }

  lemma FloorSum(a: nat, b: nat, d: nat)
    requires d > 0
    ensures a / d + b / d <= (a + b) / d <= a / d + b / d + 1
  {
    DivMod(a, d);
    DivMod(b, d);
    FloorSumFrom(a / d, a % d, b / d, b % d, d);
  }

  lemma DivMod(a: nat, d: nat)
    requires d > 0
    ensures a == d * (a / d) + a % d && 0 <= a % d < d && a / d >= 0
  {
  }

  lemma FloorSumFrom(p: nat, r: nat, q: nat, t: nat, d: nat)
    requires r < d && t < d
    ensures p + q <= (d * p + r + (d * q + t)) / d <= p + q + 1
  {
    assert d * p + r + (d * q + t) == d * (p + q) + (r + t);
    Product(d, p + q);
    if r + t < d {
      DivUnique(d * (p + q) + (r + t), d, p + q);
    } else {
      assert d * (p + q + 1) == d * (p + q) + d;
      DivUnique(d * (p + q) + (r + t), d, p + q + 1);
    }
  }

  lemma DivUnique(x: nat, d: nat, q: nat)
    requires d > 0 && d * q <= x < d * q + d
    ensures x / d == q
  {
    var k := x / d - q;
    assert d * k == x - x % d - d * q;
    AtLeast(k, d);
    AtLeast(-k, d);
  }

  /** Rounding each charge down loses less than one unit per charge after the first. */
  lemma {:induction false} FloorsGap(xs: seq<nat>, m: nat, d: nat)
    requires d > 0
    ensures Floors(xs, m, d) <= Scale(Sum(xs), m, d)
    ensures xs != [] ==> Scale(Sum(xs), m, d) <= Floors(xs, m, d) + |xs| - 1
  {
    if |xs| == 1 {
      assert xs[1..] == [] && Sum(xs) == xs[0];
    } else if xs != [] {
      FloorsGap(xs[1..], m, d);
      ScaleSum(xs[0], Sum(xs[1..]), m, d);
    }
  }

  lemma ScaleSum(a: nat, b: nat, m: nat, d: nat)
    requires d > 0
    ensures Scale(a, m, d) + Scale(b, m, d) <= Scale(a + b, m, d) <= Scale(a, m, d) + Scale(b, m, d) + 1
  {
    Product(a, m);
    Product(b, m);
    assert (a + b) * m == a * m + b * m;
    FloorSum(a * m, b * m, d);
  }

  lemma {:induction false} ScaledSum(xs: seq<nat>, multiplier: U64, shift: Byte)
    requires shift < 64
    ensures Sat64(Sum(Scaled(xs, multiplier, shift))) == Sat64(Floors(xs, multiplier, Pow2(shift)))
  {
    if xs != [] {
      ScaledSum(xs[1..], multiplier, shift);
    }
  }

  /**
    While the sum of the charges fits in 64 bits, scaling it is never less than the saturating sum of
    the scaled charges; the two agree at shift 0 and at 64 and beyond, and otherwise differ by less
    than the number of charges.
   */
  lemma ScalingOverCovers(charges: seq<nat>, multiplier: U64, shift: Byte)
    requires Sum(charges) <= U64_MAX
    ensures Sat64(Sum(Scaled(charges, multiplier, shift))) <= MulShift(Sat64(Sum(charges)), multiplier, shift)
    ensures charges != [] ==>
              MulShift(Sat64(Sum(charges)), multiplier, shift) <= Sat64(Sum(Scaled(charges, multiplier, shift))) + |charges| - 1
    ensures shift == 0 || shift >= 64 ==>
              MulShift(Sat64(Sum(charges)), multiplier, shift) == Sat64(Sum(Scaled(charges, multiplier, shift)))
  {
    if shift >= 64 {
      ScaledAway(charges, multiplier, shift);
    } else {
      ScaledSum(charges, multiplier, shift);
      FloorsGap(charges, multiplier, Pow2(shift));
      if shift == 0 {
        FloorsExact(charges, multiplier);
      }
    }
  }

  /** Scaling the saturated sum is no less than the saturating sum of the scaled charges. */
  ghost predicate OverCovers(charges: seq<U64>, multiplier: U64, shift: Byte) {
    Sat64(Sum(Scaled(charges, multiplier, shift))) <= MulShift(Sat64(Sum(charges)), multiplier, shift)
  }

  /** The settings under which a saturated sum is scaled to zero or stays saturated. */
  predicate Unhalved(multiplier: U64, shift: Byte) {
    shift >= 64 || multiplier == 0 || multiplier >= Pow2(shift)
  }

  /** Whatever the charges add up to, saturated or not, scaling their sum over-covers under these settings. */
  lemma SaturatedOverCovers(charges: seq<U64>, multiplier: U64, shift: Byte)
    requires Unhalved(multiplier, shift)
    ensures OverCovers(charges, multiplier, shift)
  {
    if Sum(charges) <= U64_MAX {
      ScalingOverCovers(charges, multiplier, shift);
    } else if shift >= 64 {
      ScaledAway(charges, multiplier, shift);
    } else if multiplier == 0 {
      ScaledToNothing(charges, shift);
    } else {
      StaysSaturated(multiplier, Pow2(shift));
    }
  }

  lemma StaysSaturated(m: nat, d: nat)
    requires d > 0 && m >= d
    ensures Scale(U64_MAX, m, d) >= U64_MAX
  {
    MulMonotone(d, m, U64_MAX);
    assert d * U64_MAX == U64_MAX * d && m * U64_MAX == U64_MAX * m;
    DivUnique(U64_MAX * d, d, U64_MAX);
    DivMonotone(U64_MAX * d, U64_MAX * m, d);
  }

  lemma {:induction false} ScaledToNothing(xs: seq<nat>, shift: Byte)
    requires shift < 64
    ensures Sum(Scaled(xs, 0, shift)) == 0
  {
    if xs != [] {
      ScaledToNothing(xs[1..], shift);
      DivUnique(0, Pow2(shift), 0);
    }
  }

  /** Under every other setting two charges of 2^64 - 1 are scaled to less than their parts. */
  lemma ScalingCanFallShort(multiplier: U64, shift: Byte)
    requires !Unhalved(multiplier, shift)
    ensures !OverCovers([U64_MAX, U64_MAX], multiplier, shift)
  {
    var charges: seq<U64> := [U64_MAX, U64_MAX];
    var part := MulShift(U64_MAX, multiplier, shift);
    Pow2Below64(shift);
    PartOfWhole(multiplier, Pow2(shift));
    assert charges[1..] == [U64_MAX] && [U64_MAX][1..] == [];
    assert Sum(charges) == U64_MAX + (U64_MAX + Sum([U64_MAX][1..]));
    TwoScaled(U64_MAX, multiplier, shift);
  }

  lemma TwoScaled(x: nat, multiplier: U64, shift: Byte)
    ensures var part := MulShift(x, multiplier, shift); Sum(Scaled([x, x], multiplier, shift)) == part + part
  {
    var part := MulShift(x, multiplier, shift);
    assert [x, x][1..] == [x] && [x][1..] == [];
    assert Scaled([x], multiplier, shift) == [part] + [];
    assert Scaled([x, x], multiplier, shift) == [part] + [part];
    assert ([part] + [part])[1..] == [part] && [part][1..] == [];
    assert Sum([part]) == part + Sum([]);
  }

  lemma PartOfWhole(m: nat, d: nat)
    requires 1 <= m < d <= 0x8000_0000_0000_0000
    ensures 1 <= Scale(U64_MAX, m, d) < U64_MAX
  {
    var x := U64_MAX * m;
    MulMonotone(1, m, U64_MAX);
    assert U64_MAX * m == m * U64_MAX;
    DivMonotone(d, x, d);
    DivUnique(d, d, 1);
    BelowWhole(m, d);
  }

  lemma BelowWhole(m: nat, d: nat)
    requires m < d
    ensures U64_MAX * m / d < U64_MAX
  {
    var x := U64_MAX * m;
    DivMod(x, d);
    MulMonotone(m + 1, d, U64_MAX);
    assert (m + 1) * U64_MAX == x + U64_MAX && d * U64_MAX >= x + U64_MAX;
    CancelLess(d, x / d, U64_MAX);
  }

  lemma CancelLess(d: nat, q: nat, w: nat)
    requires d * q < d * w
    ensures q < w
  {
    if q >= w {
      MulMonotone(w, q, d);
    }
  }

  lemma {:induction false} Pow2Grows(m: nat, n: nat)
    requires m <= n
    ensures Pow2(m) <= Pow2(n)
    decreases n
  {
    if m < n {
      Pow2Grows(m, n - 1);
    }
  }

  lemma Pow2Below64(shift: nat)
    requires shift < 64
    ensures Pow2(shift) <= 0x8000_0000_0000_0000
  {
    Pow2Grows(shift, 63);
    Pow2Of63();
  }

  /** Eight doublings at a time. */
  lemma Pow2Of63()
    ensures Pow2(63) == 0x8000_0000_0000_0000
  {
    Pow2Eight(55);
    Pow2Eight(47);
    Pow2Eight(39);
    Pow2Eight(31);
    Pow2Eight(23);
    Pow2Eight(15);
    Pow2Eight(7);
    Pow2Seven();
  }

  lemma Pow2Eight(n: nat)
    ensures Pow2(n + 8) == 256 * Pow2(n)
  {
    assert Pow2(n + 8) == 2 * Pow2(n + 7) && Pow2(n + 7) == 2 * Pow2(n + 6) && Pow2(n + 6) == 2 * Pow2(n + 5);
    assert Pow2(n + 5) == 2 * Pow2(n + 4) && Pow2(n + 4) == 2 * Pow2(n + 3) && Pow2(n + 3) == 2 * Pow2(n + 2);
    assert Pow2(n + 2) == 2 * Pow2(n + 1) && Pow2(n + 1) == 2 * Pow2(n);
  }

  lemma Pow2Seven()
    ensures Pow2(7) == 128
  {
  }

  /** Exactly when scaling the sum over-covers every list of charges. */
  lemma OverCoversExactlyWhen(multiplier: U64, shift: Byte)
    ensures (forall charges: seq<U64> :: OverCovers(charges, multiplier, shift)) <==> Unhalved(multiplier, shift)
  {
    if Unhalved(multiplier, shift) {
      forall charges: seq<U64> ensures OverCovers(charges, multiplier, shift) {
        SaturatedOverCovers(charges, multiplier, shift);
      }
    } else {
      ScalingCanFallShort(multiplier, shift);
    }
  }

  lemma {:induction false} ScaledAway(xs: seq<nat>, multiplier: U64, shift: Byte)
    requires shift >= 64
    ensures Sum(Scaled(xs, multiplier, shift)) == 0
  {
    if xs != [] {
      ScaledAway(xs[1..], multiplier, shift);
    }
  }

  lemma {:induction false} FloorsExact(xs: seq<nat>, m: nat)
    ensures Floors(xs, m, 1) == Scale(Sum(xs), m, 1)
  {
    if xs != [] {
      FloorsExact(xs[1..], m);
      assert (xs[0] + Sum(xs[1..])) * m == xs[0] * m + Sum(xs[1..]) * m;
    }
  }
}
