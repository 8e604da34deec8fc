/**
 Stein's binary gcd and the lcm built on it, in 64-bit unsigned arithmetic.
 */
module Gcd {
  import opened Unsigned
  import opened Bits

  ghost predicate Divides(d: nat, n: nat) { exists k: nat :: n == d * k }

  lemma DividesBy(d: nat, n: nat, k: nat)
    requires n == d * k
    ensures Divides(d, n)
  {
  }

  /** `g` divides both and every common divisor divides `g`. */
  ghost predicate IsGcd(g: nat, u: nat, v: nat) {
    && Divides(g, u) && Divides(g, v)
    && forall d: nat :: Divides(d, u) && Divides(d, v) ==> Divides(d, g)
  }

  lemma DividesSum(d: nat, a: nat, b: nat)
    requires Divides(d, a) && Divides(d, b)
    ensures Divides(d, a + b)
    ensures a >= b ==> Divides(d, a - b)
  {
    var j: nat :| a == d * j;
    var k: nat :| b == d * k;
    DividesBy(d, a + b, j + k) by { assert d * (j + k) == d * j + d * k; }
    if a >= b {
      if j < k { assert d * j <= d * k by { MulMonotone(j, k, d); } assert a == b; DividesBy(d, 0, 0); }
      else { DividesBy(d, a - b, j - k) by { assert d * (j - k) == d * j - d * k; } }
    }
  }

  lemma DividesTimes(d: nat, a: nat, m: nat)
    requires Divides(d, a)
    ensures Divides(d, a * m)
  {
    var k: nat :| a == d * k;
    DividesBy(d, a * m, k * m) by { assert d * (k * m) == (d * k) * m; }
  }

  lemma ZeroFactor(d: nat, k: nat)
    ensures d == 0 || k == 0 ==> d * k == 0
  {
  }

  lemma DividesLe(d: nat, n: nat)
    requires Divides(d, n) && n > 0
    ensures 0 < d <= n
  {
    var k: nat :| n == d * k;
    ZeroFactor(d, k);
    MultipleIsLarge(k, d);
  }

  lemma DividesTransitive(a: nat, b: nat, c: nat)
    requires Divides(a, b) && Divides(b, c)
    ensures Divides(a, c)
  {
    var j: nat :| b == a * j;
    var k: nat :| c == b * k;
    DividesBy(a, c, j * k) by { assert a * (j * k) == (a * j) * k; }
  }

  lemma DividesBoth(a: nat, b: nat)
    requires Divides(a, b) && Divides(b, a)
    ensures a == b
  {
    if a > 0 { DividesLe(b, a); DividesLe(a, b); } else { var k: nat :| b == a * k; }
  }

  lemma GcdUnique(g: nat, h: nat, u: nat, v: nat)
    requires IsGcd(g, u, v) && IsGcd(h, u, v)
    ensures g == h
  {
    DividesBoth(g, h);
  }

  lemma GcdOfZero(u: nat)
    ensures IsGcd(u, u, 0) && IsGcd(u, 0, u)
  {
    DividesBy(u, u, 1);
    DividesBy(u, 0, 0);
  }

  lemma GcdSwap(g: nat, u: nat, v: nat)
    requires IsGcd(g, u, v)
    ensures IsGcd(g, v, u)
  {
  }

  // ------- the steps of the algorithm -------

  lemma OddTimesOdd(a: nat, b: nat)
    ensures (2 * a + 1) * (2 * b + 1) == 2 * (2 * (a * b) + a + b) + 1
  {
  }

  /** An odd divisor of `2 * n` divides `n`. */
  lemma OddDivisor(d: nat, n: nat)
    requires d % 2 == 1 && Divides(d, 2 * n)
    ensures Divides(d, n)
  {
    var k: nat :| 2 * n == d * k;
    EvenCofactor(d, k, n);
    Halved(d, k / 2, n);
    DividesBy(d, n, k / 2);
  }

  lemma EvenCofactor(d: nat, k: nat, n: nat)
    requires d % 2 == 1 && 2 * n == d * k
    ensures k == 2 * (k / 2)
  {
    var (a, b) := (d / 2, k / 2);
    assert d == 2 * a + 1;
    if k == 2 * b + 1 { OddTimesOdd(a, b); }
  }

  lemma Halved(d: nat, b: nat, n: nat)
    requires 2 * n == d * (2 * b)
    ensures n == d * b
  {
    assert d * (2 * b) == 2 * (d * b);
  }

  lemma Double(d: nat, n: nat)
    ensures Divides(d, n) <==> Divides(2 * d, 2 * n)
  {
    if Divides(d, n) {
      var k: nat :| n == d * k;
      DividesBy(2 * d, 2 * n, k);
    }
    if Divides(2 * d, 2 * n) {
      var k: nat :| 2 * n == (2 * d) * k;
      DividesBy(d, n, k);
    }
  }

  /** Both even: halve both, and the gcd. */
  lemma GcdDouble(g: nat, u: nat, v: nat)
    requires IsGcd(g, u, v)
    ensures IsGcd(2 * g, 2 * u, 2 * v)
  {
    Double(g, u);
    Double(g, v);
    forall d: nat | Divides(d, 2 * u) && Divides(d, 2 * v) ensures Divides(d, 2 * g) {
      if d % 2 == 0 {
        Double(d / 2, u);
        Double(d / 2, v);
        Double(d / 2, g);
      } else {
        OddDivisor(d, u);
        OddDivisor(d, v);
        DividesTimes(d, g, 2);
      }
    }
  }

  lemma EvenTimes(h: nat, k: nat)
    ensures (2 * h) * k == 2 * (h * k)
  {
  }

  lemma OddFactor(d: nat, u: nat)
    requires Divides(d, u) && u % 2 == 1
    ensures d % 2 == 1
  {
    var k: nat :| u == d * k;
    EvenTimes(d / 2, k);
  }

  /** One odd: a factor of two of the other does not matter. */
  lemma GcdHalve(g: nat, u: nat, v: nat)
    requires IsGcd(g, u, v) && u % 2 == 1
    ensures IsGcd(g, u, 2 * v)
  {
    DividesTimes(g, v, 2);
    forall d: nat | Divides(d, u) && Divides(d, 2 * v) ensures Divides(d, g) {
      OddFactor(d, u);
      OddDivisor(d, v);
    }
  }

  lemma GcdDifference(g: nat, u: nat, v: nat)
    requires IsGcd(g, u, v)
    ensures IsGcd(g, u, v + u)
  {
    DividesSum(g, v, u);
    forall d: nat | Divides(d, u) && Divides(d, v + u) ensures Divides(d, g) {
      DividesSum(d, v + u, u);
    }
  }

  // ------- the algorithm -------

  /** `u` and `v` still have the gcd of the arguments, up to the power of two taken out. */
  ghost predicate Reduced(u0: nat, v0: nat, u: nat, v: nat, p: nat) {
    forall g: nat :: IsGcd(g, u, v) ==> IsGcd(p * g, u0, v0)
  }

  lemma ReducedStart(u: nat, v: nat)
    ensures Reduced(u, v, u, v, 1)
  {
  }

  lemma ReducedBoth(u0: nat, v0: nat, u: nat, v: nat, p: nat)
    requires Reduced(u0, v0, 2 * u, 2 * v, p)
    ensures Reduced(u0, v0, u, v, p * 2)
  {
    hide IsGcd;
    forall g: nat | IsGcd(g, u, v) ensures IsGcd((p * 2) * g, u0, v0) {
      GcdDouble(g, u, v);
      assert (p * 2) * g == p * (2 * g);
    }
  }

  /** A factor of two of one argument goes once the other is odd. */
  lemma ReducedHalf(u0: nat, v0: nat, u: nat, v: nat, p: nat)
    requires u % 2 == 1
    ensures Reduced(u0, v0, u, 2 * v, p) ==> Reduced(u0, v0, u, v, p)
    ensures Reduced(u0, v0, 2 * v, u, p) ==> Reduced(u0, v0, v, u, p)
  {
    hide IsGcd;
    forall g: nat | IsGcd(g, u, v) ensures IsGcd(g, u, 2 * v) { GcdHalve(g, u, v); }
    forall g: nat | IsGcd(g, v, u) ensures IsGcd(g, 2 * v, u) {
      GcdSwap(g, v, u);
      GcdHalve(g, u, v);
      GcdSwap(g, u, 2 * v);
    }
  }

  lemma ReducedDifference(u0: nat, v0: nat, u: nat, v: nat, p: nat)
    requires Reduced(u0, v0, u, u + v, p) || Reduced(u0, v0, u + v, u, p)
    ensures Reduced(u0, v0, u, v, p)
  {
    hide IsGcd;
    forall g: nat | IsGcd(g, u, v) ensures IsGcd(g, u, u + v) && IsGcd(g, u + v, u) {
      GcdDifference(g, u, v);
      GcdSwap(g, u, u + v);
    }
  }

  /** One round of the subtraction loop on two odd numbers. */
  lemma ReducedRound(u0: nat, v0: nat, u: nat, v: nat, p: nat)
    requires Reduced(u0, v0, u, v, p) && u % 2 == 1 && v % 2 == 1
    ensures u < v ==> Reduced(u0, v0, u, (v - u) / 2, p)
    ensures u >= v ==> Reduced(u0, v0, v, (u - v) / 2, p)
  {
    hide Reduced;
    if u < v {
      ReducedDifference(u0, v0, u, v - u, p);
      ReducedHalf(u0, v0, u, (v - u) / 2, p);
    } else {
      ReducedDifference(u0, v0, v, u - v, p);
      ReducedHalf(u0, v0, v, (u - v) / 2, p);
    }
  }

  /** A gcd is no more than the number it divides: shifting it back loses no bit. */
  lemma ShiftFits(u0: nat, v0: nat, r: nat)
    requires IsGcd(r, u0, v0) && u0 > 0
    ensures r <= u0
  {
    DividesLe(r, u0);
  }

  /** The greatest common divisor, found by shifts and subtractions. */
  method BinaryGcd(u0: uint64, v0: uint64) returns (r: uint64)
    ensures IsGcd(r, u0, v0)
  {
    hide IsGcd, Reduced, Pow2;
    if u0 == 0 || v0 == 0 {
      GcdOfZero(u0);
      GcdOfZero(v0);
      return u0 + v0;
    }
    var u: nat, v: nat, shift: nat := u0, v0, 0;
    ghost var p: nat := 1;
    Pow2Next(0);
    ReducedStart(u0, v0);
    while u % 2 == 0 && v % 2 == 0
      invariant 0 < u && 0 < v
      invariant p == Pow2(shift) && Reduced(u0, v0, u, v, p)
      decreases u
    {
      ReducedBoth(u0, v0, u / 2, v / 2, p);
      Pow2Next(shift);
      u, v, shift, p := u / 2, v / 2, shift + 1, p * 2;
    }
    while u % 2 == 0
      invariant 0 < u && (u % 2 == 1 || v % 2 == 1)
      invariant Reduced(u0, v0, u, v, p)
      decreases u
    {
      ReducedHalf(u0, v0, v, u / 2, p);
      u := u / 2;
    }
    while true
      invariant 0 < u && 0 < v && u % 2 == 1
      invariant Reduced(u0, v0, u, v, p)
      decreases u + v
    {
      ghost var size := u + v;
      while v % 2 == 0
        invariant 0 < v && u + v <= size
        invariant Reduced(u0, v0, u, v, p)
        decreases v
      {
        ReducedHalf(u0, v0, u, v / 2, p);
        v := v / 2;
      }
      ReducedRound(u0, v0, u, v, p);
      if u < v {
        v := v - u;
      } else {
        u, v := v, u - v;
      }
      v := v / 2;
      if v == 0 { break; }
    }
    ShiftedBack(u0, v0, u, p);
    Unwrapped(u * p);
    r := (u * Pow2(shift)) % TWO64;
  }

  lemma Unwrapped(x: nat)
    ensures x < TWO64 ==> x % TWO64 == x
  {
  }

  lemma Pow2Next(n: nat)
    ensures Pow2(0) == 1 && Pow2(n + 1) == Pow2(n) * 2
  {
  }

  /** With nothing left of `v`, what is left of `u` times the power of two is the gcd. */
  lemma ShiftedBack(u0: nat, v0: nat, u: nat, p: nat)
    requires Reduced(u0, v0, u, 0, p) && u0 > 0
    ensures IsGcd(u * p, u0, v0) && u * p <= u0
  {
    GcdOfZero(u);
    assert IsGcd(p * u, u0, v0);
    ShiftFits(u0, v0, p * u);
  }
}
