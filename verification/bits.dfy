/**
 Bit-level arithmetic on natural numbers.

 The program shifts, masks and combines unsigned machine words.  Here a word is
 a natural number below `Pow2(width)`, the operators are defined on the numbers
 themselves, and one lemma per operator says which bits of the result are set.
 Bit 0 is the least significant bit.
 */
module Bits {

  function Pow2(n: nat): (p: nat)
    ensures p > 0
  {
    if n == 0 then 1 else 2 * Pow2(n - 1)
  }

  predicate Bit(x: nat, i: nat) {
    if i == 0 then x % 2 == 1 else Bit(x / 2, i - 1)
  }

  /** `a & b` */
  function And(a: nat, b: nat): nat {
    if a == 0 then 0 else 2 * And(a / 2, b / 2) + (a % 2) * (b % 2)
  }

  /** `a | b` */
  function Or(a: nat, b: nat): nat {
    if a == 0 then b else 2 * Or(a / 2, b / 2) + (if a % 2 == 1 || b % 2 == 1 then 1 else 0)
  }

  /** `~x` on words of `w` bits */
  function Not(x: nat, w: nat): nat
    requires x < Pow2(w)
  {
    Pow2(w) - 1 - x
  }

  /** `x << v`, before the result is cut to a word */
  function Shl(x: nat, v: nat): nat { x * Pow2(v) }

  /** `x >> v`: halved `v` times */
  function Shr(x: nat, v: nat): (r: nat)
    ensures r <= x
  {
    if v == 0 then x else Shr(x / 2, v - 1)
  }

  /** the low `n` bits of `x`: what assigning to an unsigned word of `n` bits keeps */
  function Low(x: nat, n: nat): (r: nat)
    ensures r < Pow2(n)
  {
    x % Pow2(n)
  }

  lemma MulMonotone(a: nat, b: nat, m: nat)
    requires a <= b
    ensures a * m <= b * m
  {
  }

  lemma StrictTimes(a: int, b: int, g: int)
    ensures g > 0 && a < b ==> g * a + g <= g * b
  {
    if g > 0 && a < b {
      MulMonotone(1, b - a, g);
      assert (b - a) * g == b * g - a * g;
    }
  }

  lemma MultipleIsLarge(k: int, m: int)
    requires m > 0 && k != 0
    ensures k * m >= m || k * m <= -m
  {
    if k > 0 {
      MulMonotone(1, k, m);
    } else {
      MulMonotone(1, -k, m);
    }
  }

  lemma DivUnique(x: nat, m: nat, q: nat, r: nat)
    requires m > 0 && x == q * m + r && r < m
    ensures x / m == q && x % m == r
  {
    var q' := x / m;
    assert x == q' * m + x % m;
    assert (q - q') * m == q * m - q' * m;
    if q != q' {
      MultipleIsLarge(q - q', m);
      assert false;
    }
  }

  lemma {:induction false} BitShr(x: nat, v: nat, i: nat)
    ensures Bit(Shr(x, v), i) == Bit(x, i + v)
    decreases v
  {
    if v > 0 {
      BitShr(x / 2, v - 1, i);
    }
  }

  lemma {:induction false} BitShl(x: nat, v: nat, i: nat)
    ensures Bit(Shl(x, v), i) == (i >= v && Bit(x, i - v))
    decreases v, i
  {
    if v > 0 {
      assert Shl(x, v) == 2 * Shl(x, v - 1);
      if i > 0 { BitShl(x, v - 1, i - 1); }
    }
  }

  lemma {:induction false} BitLow(x: nat, n: nat, i: nat)
    ensures Bit(Low(x, n), i) == (i < n && Bit(x, i))
    decreases n, i
  {
    if n == 0 {
      BitZero(i);
    } else {
      LowStep(x, n);
      if i > 0 { BitLow(x / 2, n - 1, i - 1); }
    }
  }

  lemma LowStep(x: nat, n: nat)
    requires n > 0
    ensures Low(x, n) == 2 * Low(x / 2, n - 1) + x % 2
    ensures Low(x, n) / 2 == Low(x / 2, n - 1)
  {
    var m := Pow2(n - 1);
    var q := (x / 2) / m;
    var r := (x / 2) % m;
    assert x == q * (2 * m) + (2 * r + x % 2) by {
      assert x / 2 == q * m + r;
      assert 2 * (q * m) == q * (2 * m);
    }
    DivUnique(x, 2 * m, q, 2 * r + x % 2);
  }

  lemma {:induction false} BitZero(i: nat)
    ensures !Bit(0, i)
  {
    if i > 0 { BitZero(i - 1); }
  }

  lemma {:induction false} BitAnd(a: nat, b: nat, i: nat)
    ensures Bit(And(a, b), i) == (Bit(a, i) && Bit(b, i))
    decreases i
  {
    if a == 0 {
      BitZero(i);
    } else if i > 0 {
      BitAnd(a / 2, b / 2, i - 1);
      assert And(a, b) / 2 == And(a / 2, b / 2);
    }
  }

  lemma {:induction false} BitOr(a: nat, b: nat, i: nat)
    ensures Bit(Or(a, b), i) == (Bit(a, i) || Bit(b, i))
    decreases i
  {
    if a == 0 {
      BitZero(i);
    } else if i > 0 {
      BitOr(a / 2, b / 2, i - 1);
    }
  }

  lemma {:induction false} BitNot(x: nat, w: nat, i: nat)
    requires x < Pow2(w) && i < w
    ensures Bit(Not(x, w), i) == !Bit(x, i)
    decreases w
  {
    if i > 0 { BitNot(x / 2, w - 1, i - 1); }
  }

  lemma {:induction false} BitAbove(x: nat, n: nat, i: nat)
    requires x < Pow2(n) && n <= i
    ensures !Bit(x, i)
    decreases n
  {
    if n == 0 { BitZero(i); } else { BitAbove(x / 2, n - 1, i - 1); }
  }

  /** Two words with the same bits are the same word. */
  lemma {:induction false} SameBits(x: nat, y: nat, n: nat)
    requires x < Pow2(n) && y < Pow2(n)
    requires forall i :: 0 <= i < n ==> Bit(x, i) == Bit(y, i)
    ensures x == y
    decreases n
  {
    if n > 0 {
      assert Bit(x, 0) == Bit(y, 0);
      forall i | 0 <= i < n - 1 ensures Bit(x / 2, i) == Bit(y / 2, i) {
        assert Bit(x, i + 1) == Bit(y, i + 1);
      }
      SameBits(x / 2, y / 2, n - 1);
    }
  }

  lemma {:induction false} OrBound(a: nat, b: nat, n: nat)
    requires a < Pow2(n) && b < Pow2(n)
    ensures Or(a, b) < Pow2(n)
    decreases n
  {
    if n > 0 && a != 0 { OrBound(a / 2, b / 2, n - 1); }
  }

  lemma {:induction false} AndBound(a: nat, b: nat)
    ensures And(a, b) <= a && And(a, b) <= b
  {
    if a != 0 {
      AndBound(a / 2, b / 2);
      BitTimes(a % 2, b % 2);
    }
  }

  lemma BitTimes(i: nat, j: nat)
    requires i < 2 && j < 2
    ensures i * j <= i && i * j <= j
  {
    assert i == 0 || i == 1;
  }

  lemma {:induction false} Pow2Monotone(m: nat, n: nat)
    requires m <= n
    ensures Pow2(m) <= Pow2(n)
  {
    if m < n { Pow2Monotone(m, n - 1); }
  }

  lemma {:induction false} Pow2Sum(m: nat, n: nat)
    ensures Pow2(m + n) == Pow2(m) * Pow2(n)
  {
    if n > 0 {
      Pow2Sum(m, n - 1);
      assert Pow2(m + n) == 2 * Pow2(m + (n - 1));
    }
  }

  /** `hi` placed above a word `lo` of `w` bits. */
  lemma {:induction false} BitCat(hi: nat, lo: nat, w: nat, i: nat)
    requires lo < Pow2(w)
    ensures Bit(hi * Pow2(w) + lo, i) == if i < w then Bit(lo, i) else Bit(hi, i - w)
    decreases w, i
  {
    if w > 0 {
      assert hi * Pow2(w) == 2 * (hi * Pow2(w - 1));
      if i > 0 {
        assert (hi * Pow2(w) + lo) / 2 == hi * Pow2(w - 1) + lo / 2;
        BitCat(hi, lo / 2, w - 1, i - 1);
      }
    }
  }

  lemma Pow2Values()
    ensures Pow2(8) == 0x100 && Pow2(16) == 0x1_0000 && Pow2(24) == 0x100_0000 && Pow2(32) == 0x1_0000_0000
  {
    assert Pow2(4) == 16;
    Pow2Sum(4, 4);
    Pow2Sum(8, 8);
    Pow2Sum(8, 16);
    Pow2Sum(16, 16);
  }
}
