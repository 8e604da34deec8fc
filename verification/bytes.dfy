/** Bytes, byte arrays read as bit strings, and big-endian integers. */
module Bytes {
  import opened Bits

  type byte = x: nat | x < 0x100

  /** Bit `k` of a byte counted from the most significant end, as it goes on the wire. */
  predicate Msb(b: byte, k: nat)
    requires k < 8
  {
    Bit(b, 7 - k)
  }

  /** Bit `i` of a byte array read from its first byte on, most significant bit first. */
  predicate BitAt(s: seq<byte>, i: nat)
    requires i < 8 * |s|
  {
    Msb(s[i / 8], i % 8)
  }

  // ------- the C operators on `uchar` -------

  function ByteOr(a: byte, b: byte): byte {
    assert Pow2(8) == 0x100;
    OrBound(a, b, 8);
    Or(a, b)
  }

  function ByteShl(b: byte, v: nat): byte {
    assert Pow2(8) == 0x100;
    Low(Shl(b, v), 8)
  }

  function ByteShr(b: byte, v: nat): byte {
    Shr(b, v)
  }

  lemma MsbOr(a: byte, b: byte, k: nat)
    requires k < 8
    ensures Msb(ByteOr(a, b), k) == (Msb(a, k) || Msb(b, k))
  {
    BitOr(a, b, 7 - k);
  }

  lemma MsbShl(b: byte, v: nat, k: nat)
    requires k < 8
    ensures Msb(ByteShl(b, v), k) == (k + v < 8 && Msb(b, k + v))
  {
    BitLow(Shl(b, v), 8, 7 - k);
    BitShl(b, v, 7 - k);
  }

  lemma MsbShr(b: byte, v: nat, k: nat)
    requires k < 8
    ensures Msb(ByteShr(b, v), k) == (k >= v && Msb(b, k - v))
  {
    BitShr(b, v, 7 - k);
    if k < v {
      assert Pow2(8) == 0x100;
      BitAbove(b, 8, 7 - k + v);
    }
  }

  lemma SameByte(a: byte, b: byte)
    requires forall k :: 0 <= k < 8 ==> Msb(a, k) == Msb(b, k)
    ensures a == b
  {
    assert Pow2(8) == 0x100;
    forall i | 0 <= i < 8 ensures Bit(a, i) == Bit(b, i) {
      assert Msb(a, 7 - i) == Msb(b, 7 - i);
    }
    SameBits(a, b, 8);
  }

  lemma SameBytes(s: seq<byte>, t: seq<byte>)
    requires |s| == |t|
    requires forall i :: 0 <= i < 8 * |s| ==> BitAt(s, i) == BitAt(t, i)
    ensures s == t
  {
    forall j | 0 <= j < |s| ensures s[j] == t[j] {
      forall k | 0 <= k < 8 ensures Msb(s[j], k) == Msb(t[j], k) {
        assert BitAt(s, 8 * j + k) == BitAt(t, 8 * j + k);
      }
      SameByte(s[j], t[j]);
    }
  }

  // ------- big-endian integers -------

  function FromBe(s: seq<byte>): nat {
    if s == [] then 0 else FromBe(s[..|s| - 1]) * 0x100 + s[|s| - 1]
  }

  /** The low `8 * n` bits of `x`, most significant byte first. */
  function ToBe(x: nat, n: nat): (s: seq<byte>)
    ensures |s| == n
  {
    if n == 0 then [] else ToBe(x / 0x100, n - 1) + [x % 0x100]
  }

  lemma {:induction false} FromBeBound(s: seq<byte>)
    ensures FromBe(s) < Pow2(8 * |s|)
  {
    if s != [] {
      FromBeBound(s[..|s| - 1]);
      Pow2Sum(8 * (|s| - 1), 8);
      assert Pow2(8) == 0x100;
      assert Pow2(8 * |s|) == Pow2(8 * (|s| - 1)) * 0x100;
    }
  }

  lemma {:induction false} BitFromBe(s: seq<byte>, i: nat)
    requires i < 8 * |s|
    ensures Bit(FromBe(s), i) == BitAt(s, 8 * |s| - 1 - i)
  {
    var n := |s|;
    var init := s[..n - 1];
    assert Pow2(8) == 0x100;
    BitCat(FromBe(init), s[n - 1], 8, i);
    if i >= 8 {
      BitFromBe(init, i - 8);
      var j := 8 * n - 1 - i;
      assert j < 8 * (n - 1) && BitAt(s, j) == BitAt(init, j);
    }
  }

  lemma {:induction false} FromToBe(x: nat, n: nat)
    ensures FromBe(ToBe(x, n)) == Low(x, 8 * n)
  {
    if n == 0 {
    } else {
      var t := ToBe(x / 0x100, n - 1);
      assert ToBe(x, n)[..n - 1] == t;
      FromToBe(x / 0x100, n - 1);
      LowByteBelow(x, 8 * (n - 1));
    }
  }

  lemma LowByteBelow(x: nat, w: nat)
    ensures Low(x, w + 8) == Low(x / 0x100, w) * 0x100 + x % 0x100
  {
    var m := Pow2(w);
    var q, r := (x / 0x100) / m, (x / 0x100) % m;
    var low := r * 0x100 + x % 0x100;
    assert Pow2(w + 8) == m * 0x100 by {
      Pow2Sum(w, 8);
      assert Pow2(8) == 0x100;
    }
    assert low < m * 0x100;
    assert x == q * (m * 0x100) + low by {
      assert x / 0x100 == q * m + r;
      assert (q * m) * 0x100 == q * (m * 0x100);
    }
    DivUnique(x, m * 0x100, q, low);
  }

  lemma {:induction false} ToFromBe(s: seq<byte>)
    ensures ToBe(FromBe(s), |s|) == s
  {
    if s != [] {
      ToFromBe(s[..|s| - 1]);
      assert s == s[..|s| - 1] + [s[|s| - 1]];
    }
  }
}
