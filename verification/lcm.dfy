/**
 The lcm of 64-bit numbers as a quotient of their product, and when it is one.
 */
module Lcm {
  import opened Unsigned
  import opened Bits
  import opened Gcd

  /** A common multiple of which every common multiple is a multiple. */
  ghost predicate IsLcm(l: nat, u: nat, v: nat) {
    && Divides(u, l) && Divides(v, l)
    && forall m: nat :: Divides(u, m) && Divides(v, m) ==> Divides(l, m)
  }

  // ------- the gcd as a combination -------

  lemma {:induction false} Bezout(u: nat, v: nat) returns (g: nat, x: int, y: int)
    ensures IsGcd(g, u, v) && g == u * x + v * y
    decreases u + v
  {
    if v == 0 {
      GcdOfZero(u);
      g, x, y := u, 1, 0;
    } else if u == 0 {
      GcdOfZero(v);
      g, x, y := v, 0, 1;
    } else if u <= v {
      g, x, y := Bezout(u, v - u);
      GcdDifference(g, u, v - u);
      assert u * (x - y) + v * y == u * x + (v - u) * y;
      x := x - y;
    } else {
      g, x, y := Bezout(u - v, v);
      GcdSwap(g, u - v, v);
      GcdDifference(g, v, u - v);
      GcdSwap(g, v, u);
      assert u * x + v * (y - x) == (u - v) * x + v * y;
      y := y - x;
    }
  }

  /** `u * v == g * l` makes `l` the least common multiple. */
  lemma QuotientIsLcm(u: nat, v: nat, g: nat, l: nat)
    requires u > 0 && v > 0 && IsGcd(g, u, v) && u * v == g * l
    ensures IsLcm(l, u, v)
  {
    DividesLe(g, u);
    var a: nat :| u == g * a;
    var b: nat :| v == g * b;
    assert l == a * v by { assert g * (a * v) == (g * a) * v; Cancel(g, l, a * v); }
    assert l == u * b by { assert g * (u * b) == u * (g * b); Cancel(g, l, u * b); }
    DividesBy(u, l, b);
    DividesBy(v, l, a) by { assert v * a == a * v; }
    forall m: nat | Divides(u, m) && Divides(v, m) ensures Divides(l, m) {
      MultipleOfLcm(u, v, g, l, m);
    }
  }

  lemma Cancel(g: nat, a: nat, b: nat)
    requires g > 0 && g * a == g * b
    ensures a == b
  {
    StrictTimes(a, b, g);
    StrictTimes(b, a, g);
  }

  /** With `g` a combination of `u` and `v`, a common multiple times `g` is one of `u * v`. */
  lemma TimesGcd(u: int, v: int, x: int, y: int, j: int, k: int, m: int)
    requires m == u * j && m == v * k
    ensures (u * x + v * y) * m == (u * v) * (k * x + j * y)
  {
    Spread(m, u, v, x, y);
    assert m * u == (u * v) * k && m * v == (u * v) * j;
    Gather(u * v, k, x, j, y);
  }

  lemma Regroup(g: int, l: int, n: int)
    ensures (g * l) * n == g * (l * n)
  {
  }

  lemma MultipleOfLcm(u: nat, v: nat, g: nat, l: nat, m: nat)
    requires u > 0 && v > 0 && IsGcd(g, u, v) && u * v == g * l
    requires Divides(u, m) && Divides(v, m)
    ensures Divides(l, m)
  {
    var g', x, y := Bezout(u, v);
    GcdUnique(g, g', u, v);
    DividesLe(g, u);
    hide IsGcd;
    var j: nat :| m == u * j;
    var k: nat :| m == v * k;
    var n := k * x + j * y;
    TimesGcd(u, v, x, y, j, k, m);
    Regroup(g, l, n);
    CancelInt(g, m, l * n);
    if n < 0 {
      NonPositive(l, n);
      DividesBy(l, m, 0);
    } else {
      DividesBy(l, m, n);
    }
  }

  lemma Spread(m: int, u: int, v: int, x: int, y: int)
    ensures m * (u * x + v * y) == (m * u) * x + (m * v) * y
  {
  }

  lemma Gather(p: int, k: int, x: int, j: int, y: int)
    ensures (p * k) * x + (p * j) * y == p * (k * x + j * y)
  {
  }

  lemma CancelInt(g: nat, a: int, b: int)
    requires g > 0 && g * a == g * b
    ensures a == b
  {
    assert g * (a - b) == 0;
    if a - b != 0 { assert a - b >= 1 || a - b <= -1; NonZero(g, a - b); }
  }

  lemma NonZero(g: nat, d: int)
    requires g > 0 && d != 0
    ensures g * d != 0
  {
  }

  lemma NonPositive(l: nat, n: int)
    requires n < 0
    ensures l * n <= 0
  {
  }

  lemma LcmUnique(l: nat, m: nat, u: nat, v: nat)
    requires IsLcm(l, u, v) && IsLcm(m, u, v)
    ensures l == m
  {
    DividesBoth(l, m);
  }

  // ------- as functions -------

  lemma GcdExists(u: nat, v: nat)
    ensures exists g: nat :: IsGcd(g, u, v)
  {
    var g, x, y := Bezout(u, v);
  }

  ghost function GcdOf(u: nat, v: nat): (g: nat)
    ensures IsGcd(g, u, v)
  {
    GcdExists(u, v);
    var g: nat :| IsGcd(g, u, v);
    g
  }

  lemma LcmExists(u: nat, v: nat)
    requires u > 0 && v > 0
    ensures Divides(GcdOf(u, v), u * v) && GcdOf(u, v) > 0
    ensures IsLcm(u * v / GcdOf(u, v), u, v)
    ensures u * v == GcdOf(u, v) * (u * v / GcdOf(u, v))
  {
    hide IsLcm;
    var g := GcdOf(u, v);
    DividesLe(g, u);
    DividesTimes(g, u, v);
    var l: nat :| u * v == g * l;
    assert u * v / g == l by { DivUnique(u * v, g, l, 0); }
    QuotientIsLcm(u, v, g, l);
  }

  ghost function LcmOf(u: nat, v: nat): (l: nat)
    requires u > 0 && v > 0
    ensures IsLcm(l, u, v)
  {
    LcmExists(u, v);
    u * v / GcdOf(u, v)
  }

  // ------- the lcm of the code -------

  /** The code reads zero as one. */
  function OrOne(u: nat): (r: nat)
    ensures r > 0
  {
    if u == 0 then 1 else u
  }

  ghost function CodeLcm(u: uint64, v: uint64): uint64 {
    var a, b := OrOne(u), OrOne(v);
    var product := (a * b) % TWO64;
    if a == 1 || b == 1 then product
    else
      GcdPositive(a, b);
      DivSmaller(product, GcdOf(a, b));
      product / GcdOf(a, b)
  }

  lemma GcdPositive(u: nat, v: nat)
    requires u > 0
    ensures 0 < GcdOf(u, v) <= u
  {
    DividesLe(GcdOf(u, v), u);
  }

  lemma DivSmaller(x: nat, g: nat)
    requires g > 0
    ensures x / g <= x
  {
    MulMonotone(1, g, x / g);
  }

  method BinaryLcm(u: uint64, v: uint64) returns (r: uint64)
    ensures r == CodeLcm(u, v)
  {
    hide IsGcd;
    var a, b := u, v;
    if a == 0 { a := 1; }
    if b == 0 { b := 1; }
    if a == 1 || b == 1 { return (a * b) % TWO64; }
    var g := BinaryGcd(a, b);
    GcdUnique(g, GcdOf(a, b), a, b);
    GcdPositive(a, b);
    DivSmaller((a * b) % TWO64, g);
    r := ((a * b) % TWO64) / g;
  }

  lemma QuotientDrops(p: nat, g: nat)
    requires p >= TWO64 && 0 < g < TWO64
    ensures (p % TWO64) / g < p / g
  {
    var q := p % TWO64;
    assert q <= p - TWO64;
    StrictTimes(p / g - 1, q / g, g);
    assert g * (p / g - 1) == g * (p / g) - g;
  }

  /** The code finds the least common multiple, zeros read as one, exactly when the product
      fits 64 bits. */
  lemma CodeLcmIff(u: uint64, v: uint64)
    ensures CodeLcm(u, v) == LcmOf(OrOne(u), OrOne(v)) <==> OrOne(u) * OrOne(v) < TWO64
  {
    hide IsLcm, IsGcd, GcdOf;
    var a, b := OrOne(u), OrOne(v);
    GcdPositive(a, b);
    if a == 1 || b == 1 {
      LcmOfOne(a, b);
    } else if a * b >= TWO64 {
      QuotientDrops(a * b, GcdOf(a, b));
    }
  }

  lemma LcmOfOne(a: nat, b: nat)
    requires a > 0 && b > 0 && (a == 1 || b == 1)
    ensures LcmOf(a, b) == a * b
  {
    var n := a * b;
    DividesBy(a, n, b);
    DividesBy(b, n, a);
    assert IsLcm(n, a, b);
    LcmUnique(LcmOf(a, b), n, a, b);
  }
}
