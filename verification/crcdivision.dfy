/**
 What the CRC loop computes: the remainder of a long division over GF(2) by the CRC32c
 polynomial (RFC 4960 Appendix B), and why every burst of at most 32 bits changes it.
 */
module CrcDivision {
  import opened Crc32c

  type Bits = seq<bool>

  // ------- long division -------

  function Word(b: bool): bv32 { if b then 1 else 0 }

  /** Multiplication by x modulo the polynomial
      x^32+x^28+x^27+x^26+x^25+x^23+x^22+x^20+x^19+x^18+x^14+x^13+x^11+x^10+x^9+x^8+x^6+1. */
  function TimesX(r: bv32): bv32 {
    if r & 0x8000_0000 != 0 then (r << 1) ^ 0x1EDC_6F41 else r << 1
  }

  /** The remainder of the polynomial whose coefficients are those of `r`, then `bits`,
      the highest power first. */
  function Remainder(r: bv32, bits: Bits): bv32
    decreases |bits|
  {
    if bits == [] then r else Remainder(Xor(TimesX(r), Word(bits[0])), bits[1..])
  }

  function Zeros(n: nat): (b: Bits)
    ensures |b| == n
  {
    if n == 0 then [] else [false] + Zeros(n - 1)
  }

  function Ones(n: nat): (b: Bits)
    ensures |b| == n
  {
    if n == 0 then [] else [true] + Ones(n - 1)
  }

  /** The sum of two polynomials. */
  function Sum(a: Bits, b: Bits): (s: Bits)
    requires |a| == |b|
    ensures |s| == |a|
  {
    if a == [] then [] else [a[0] != b[0]] + Sum(a[1..], b[1..])
  }

  /** The `n` low bits of a word, the lowest one first. */
  function LowFirst(d: bv32, n: nat): (b: Bits)
    ensures |b| == n
  {
    if n == 0 then [] else [d & 1 == 1] + LowFirst(d >> 1, n - 1)
  }

  /** The message as a polynomial: RFC 4960 takes the bits of each byte low bit first. */
  function MessageBits(m: seq<bv8>): (b: Bits)
    ensures |b| == 8 * |m|
  {
    if m == [] then [] else LowFirst(m[0] as bv32, 8) + MessageBits(m[1..])
  }

  // ------- the register -------

  function Feed(c: bv32, bits: Bits): bv32
    decreases |bits|
  {
    if bits == [] then c else Feed(BitStep(Xor(c, Word(bits[0]))), bits[1..])
  }

  lemma {:induction false} FeedConcat(c: bv32, a: Bits, b: Bits)
    ensures Feed(c, a + b) == Feed(Feed(c, a), b)
    decreases |a|
  {
    hide BitStep, Xor, Word;
    if a == [] {
      assert a + b == b;
    } else {
      assert (a + b)[1..] == a[1..] + b;
      FeedConcat(BitStep(Xor(c, Word(a[0]))), a[1..], b);
    }
  }

  function HalvedBy(d: bv32, n: nat): bv32 { if n == 0 then d else HalvedBy(d >> 1, n - 1) }

  lemma OddWord(c: bv32, d: bv32)
    requires d & 1 == 1
    ensures Xor(c, d) == Xor(Xor(c, 1), d & 0xFFFF_FFFE)
  {
  }

  lemma EvenWord(c: bv32, d: bv32)
    requires d & 1 == 0
    ensures Xor(c, d) == Xor(Xor(c, 0), d & 0xFFFF_FFFE)
  {
  }

  lemma HighBits(d: bv32)
    ensures (d & 0xFFFF_FFFE) & 1 == 0 && (d & 0xFFFF_FFFE) >> 1 == d >> 1
  {
  }

  lemma LowBit(c: bv32, d: bv32)
    ensures Xor(c, d) == Xor(Xor(c, Word(d & 1 == 1)), d & 0xFFFF_FFFE)
  {
    hide Xor;
    OddOrEven(d);
    if d & 1 == 1 {
      OddWord(c, d);
    } else {
      EvenWord(c, d);
    }
  }

  lemma EvenStep(d: bv32)
    requires d & 1 == 0
    ensures BitStep(d) == d >> 1
  {
  }

  lemma StepSplit(c: bv32, d: bv32)
    ensures BitStep(Xor(c, d)) == Xor(BitStep(Xor(c, Word(d & 1 == 1))), d >> 1)
  {
    hide BitStep, Xor, Word;
    LowBit(c, d);
    HighBits(d);
    BitStepLinear(Xor(c, Word(d & 1 == 1)), d & 0xFFFF_FFFE);
    EvenStep(d & 0xFFFF_FFFE);
  }

  /** Stepping a state with a word already mixed in is feeding the word's bits one by one. */
  lemma {:induction false} StepsAreFeeds(c: bv32, d: bv32, n: nat)
    ensures Steps(n, Xor(c, d)) == Xor(Feed(c, LowFirst(d, n)), HalvedBy(d, n))
    decreases n
  {
    hide BitStep, Xor, Word;
    if n > 0 {
      StepSplit(c, d);
      StepsAreFeeds(BitStep(Xor(c, Word(d & 1 == 1))), d >> 1, n - 1);
      assert LowFirst(d, n)[1..] == LowFirst(d >> 1, n - 1);
    }
  }

  lemma XorZero(c: bv32)
    ensures Xor(c, 0) == c && Xor(0, c) == c
  {
  }

  lemma ByteGone(d: bv8)
    ensures HalvedBy(d as bv32, 8) == 0
  {
    var w := d as bv32;
    assert w < 0x100;
    HalvedTwice(w, 6);
    HalvedTwice(w >> 2, 4);
    HalvedTwice(w >> 4, 2);
    HalvedTwice(w >> 6, 0);
  }

  lemma HalvedTwice(d: bv32, n: nat)
    ensures HalvedBy(d, n + 2) == HalvedBy(d >> 2, n)
  {
    assert HalvedBy(d, n + 2) == HalvedBy(d >> 1, n + 1) == HalvedBy((d >> 1) >> 1, n);
  }

  lemma ByteIsFeed(c: bv32, d: bv8)
    ensures TableStep(c, d) == Feed(c, LowFirst(d as bv32, 8))
  {
    hide BitStep, Xor, Word, Feed, Steps, TableStep, LowFirst, HalvedBy;
    TableStepIsEightSteps(c, d);
    StepsAreFeeds(c, d as bv32, 8);
    ByteGone(d);
    XorZero(Feed(c, LowFirst(d as bv32, 8)));
  }

  /** The table-driven loop feeds the bits of the message to the shift register. */
  lemma {:induction false} RunIsFeed(c: bv32, m: seq<bv8>)
    ensures Run(c, m) == Feed(c, MessageBits(m))
    decreases m
  {
    hide BitStep, Xor, Word, TableStep, LowFirst;
    if m != [] {
      ByteIsFeed(c, m[0]);
      RunIsFeed(TableStep(c, m[0]), m[1..]);
      FeedConcat(c, LowFirst(m[0] as bv32, 8), MessageBits(m[1..]));
    }
  }

  // ------- end for end -------

  /** All 32 bits in the opposite order. */
  function Reverse(x: bv32): bv32 {
    (((x >> 0) & 1) << 31) | (((x >> 1) & 1) << 30) | (((x >> 2) & 1) << 29) | (((x >> 3) & 1) << 28)
    | (((x >> 4) & 1) << 27) | (((x >> 5) & 1) << 26) | (((x >> 6) & 1) << 25) | (((x >> 7) & 1) << 24)
    | (((x >> 8) & 1) << 23) | (((x >> 9) & 1) << 22) | (((x >> 10) & 1) << 21) | (((x >> 11) & 1) << 20)
    | (((x >> 12) & 1) << 19) | (((x >> 13) & 1) << 18) | (((x >> 14) & 1) << 17) | (((x >> 15) & 1) << 16)
    | (((x >> 16) & 1) << 15) | (((x >> 17) & 1) << 14) | (((x >> 18) & 1) << 13) | (((x >> 19) & 1) << 12)
    | (((x >> 20) & 1) << 11) | (((x >> 21) & 1) << 10) | (((x >> 22) & 1) << 9) | (((x >> 23) & 1) << 8)
    | (((x >> 24) & 1) << 7) | (((x >> 25) & 1) << 6) | (((x >> 26) & 1) << 5) | (((x >> 27) & 1) << 4)
    | (((x >> 28) & 1) << 3) | (((x >> 29) & 1) << 2) | (((x >> 30) & 1) << 1) | (((x >> 31) & 1) << 0)
  }

  /** The bits within each byte in the opposite order. */
  function ReverseEachByte(x: bv32): bv32 {
    var p := ((x >> 1) & 0x5555_5555) | ((x & 0x5555_5555) << 1);
    var q := ((p >> 2) & 0x3333_3333) | ((p & 0x3333_3333) << 2);
    ((q >> 4) & 0x0F0F_0F0F) | ((q & 0x0F0F_0F0F) << 4)
  }

  lemma ReverseXor(a: bv32, b: bv32)
    ensures Reverse(Xor(a, b)) == Xor(Reverse(a), Reverse(b))
  {
  }

  lemma ReverseShift(c: bv32)
    ensures Reverse(c >> 1) == Reverse(c) << 1
    ensures Reverse(c) & 0x8000_0000 == (c & 1) << 31
  {
  }

  lemma ReverseConstants()
    ensures Reverse(0x82F6_3B78) == 0x1EDC_6F41 && Reverse(0xFFFF_FFFF) == 0xFFFF_FFFF
    ensures Reverse(0) == 0 && Reverse(1) == 0x8000_0000
  {
  }

  /** Reversing the bits takes four reversals in place and a byte swap. */
  lemma ReverseInPlace(a: bv32)
    ensures Reverse(a) == SwapBytes(ReverseEachByte(a))
    ensures Finished(a) == ReverseEachByte(!Reverse(a))
  {
  }

  // ------- the register multiplies by x -------

  lemma BitStepReversed(c: bv32)
    ensures Reverse(BitStep(c)) == TimesX(Reverse(c))
  {
    hide Reverse, Xor;
    ReverseShift(c);
    ReverseConstants();
    BitStepParts(c);
    TimesXParts(Reverse(c));
    OddOrEven(c);
    ReverseXor(c >> 1, 0x82F6_3B78);
  }

  lemma BitStepParts(c: bv32)
    ensures c & 1 == 1 ==> BitStep(c) == Xor(c >> 1, 0x82F6_3B78)
    ensures c & 1 == 0 ==> BitStep(c) == c >> 1
  {
  }

  lemma TimesXParts(r: bv32)
    ensures r & 0x8000_0000 == 0 ==> TimesX(r) == r << 1
    ensures r & 0x8000_0000 != 0 ==> TimesX(r) == Xor(r << 1, 0x1EDC_6F41)
  {
  }

  lemma ReverseTwice(a: bv32)
    ensures Reverse(Reverse(a)) == a
  {
  }

  lemma TimesXLinear(a: bv32, b: bv32)
    ensures TimesX(Xor(a, b)) == Xor(TimesX(a), TimesX(b))
  {
    hide TimesX, Reverse, Xor, BitStep;
    ReverseTwice(a);
    ReverseTwice(b);
    BitStepLinear(Reverse(a), Reverse(b));
    BitStepReversed(Reverse(a));
    BitStepReversed(Reverse(b));
    BitStepReversed(Xor(Reverse(a), Reverse(b)));
    ReverseXor(Reverse(a), Reverse(b));
    ReverseXor(BitStep(Reverse(a)), BitStep(Reverse(b)));
  }

  function Register(r: bv32, bits: Bits): bv32
    decreases |bits|
  {
    if bits == [] then r else Register(TimesX(Xor(r, Top(bits[0]))), bits[1..])
  }

  function Top(b: bool): bv32 { if b then 0x8000_0000 else 0 }

  lemma ReverseFed(c: bv32, b: bool)
    ensures Reverse(BitStep(Xor(c, Word(b)))) == TimesX(Xor(Reverse(c), Top(b)))
  {
    hide Reverse, Xor, BitStep, TimesX;
    BitStepReversed(Xor(c, Word(b)));
    ReverseXor(c, Word(b));
    ReverseConstants();
  }

  lemma {:induction false} FeedReversed(c: bv32, bits: Bits)
    ensures Reverse(Feed(c, bits)) == Register(Reverse(c), bits)
    decreases |bits|
  {
    hide Reverse, Xor, BitStep, TimesX, Word, Top;
    if bits != [] {
      ReverseFed(c, bits[0]);
      FeedReversed(BitStep(Xor(c, Word(bits[0]))), bits[1..]);
    }
  }

  // ------- and so divides -------

  function Times(n: nat, r: bv32): bv32 { if n == 0 then r else Times(n - 1, TimesX(r)) }

  lemma {:induction false} TimesLinear(n: nat, a: bv32, b: bv32)
    ensures Times(n, Xor(a, b)) == Xor(Times(n, a), Times(n, b))
  {
    hide TimesX, Xor;
    if n > 0 {
      TimesXLinear(a, b);
      TimesLinear(n - 1, TimesX(a), TimesX(b));
    }
  }

  lemma {:induction false} TimesSum(m: nat, n: nat, r: bv32)
    ensures Times(m + n, r) == Times(n, Times(m, r))
    decreases m
  {
    hide TimesX;
    if m > 0 { TimesSum(m - 1, n, TimesX(r)); }
  }

  lemma {:induction false} TimesZero(n: nat)
    ensures Times(n, 0) == 0
  {
    if n > 0 { TimesZero(n - 1); }
  }

  lemma {:induction false} RemainderZeros(r: bv32, n: nat)
    ensures Remainder(r, Zeros(n)) == Times(n, r)
    decreases n
  {
    hide TimesX, Xor;
    if n > 0 {
      XorZero(TimesX(r));
      assert Zeros(n)[1..] == Zeros(n - 1);
      RemainderZeros(TimesX(r), n - 1);
    }
  }

  lemma {:induction false} RemainderConcat(r: bv32, a: Bits, b: Bits)
    ensures Remainder(r, a + b) == Remainder(Remainder(r, a), b)
    decreases |a|
  {
    hide TimesX, Xor, Word;
    if a == [] {
      assert a + b == b;
    } else {
      assert (a + b)[1..] == a[1..] + b;
      RemainderConcat(Xor(TimesX(r), Word(a[0])), a[1..], b);
    }
  }

  lemma Powers()
    ensures Times(31, 1) == 0x8000_0000
  {
    hide TimesX;
    TimesSum(8, 23, 1);
    TimesSum(8, 15, 0x100);
    TimesSum(8, 7, 0x1_0000);
    EightPowers();
  }

  lemma EightPowers()
    ensures Times(8, 1) == 0x100 && Times(8, 0x100) == 0x1_0000 && Times(8, 0x1_0000) == 0x100_0000
    ensures Times(7, 0x100_0000) == 0x8000_0000
  {
  }

  lemma TopIsFar(b: bool)
    ensures Times(32, Word(b)) == TimesX(Top(b))
  {
    hide TimesX;
    if b {
      Powers();
      TimesSum(31, 1, 1);
      assert Times(1, 0x8000_0000) == Times(0, TimesX(0x8000_0000));
    } else {
      TimesZero(32);
      TimesZero(1);
      assert Times(1, 0) == Times(0, TimesX(0));
    }
  }

  lemma RegisterAhead(r: bv32, b: bool)
    ensures TimesX(Xor(Times(32, r), Top(b))) == Times(32, Xor(TimesX(r), Word(b)))
  {
    hide TimesX, Xor, Word, Top, Times;
    TimesXLinear(Times(32, r), Top(b));
    TimesLinear(32, TimesX(r), Word(b));
    TopIsFar(b);
    TimesSum(32, 1, r);
    TimesSum(1, 32, r);
    OneTime(r);
    OneTime(Times(32, r));
  }

  lemma OneTime(r: bv32)
    ensures Times(1, r) == TimesX(r)
  {
    hide TimesX;
    assert Times(1, r) == Times(0, TimesX(r));
  }

  /** The register is 32 powers ahead of the division. */
  lemma {:induction false} RegisterDivides(r: bv32, bits: Bits)
    ensures Register(Times(32, r), bits) == Times(32, Remainder(r, bits))
    decreases |bits|
  {
    hide TimesX, Xor, Word, Top, Times;
    if bits != [] {
      RegisterAhead(r, bits[0]);
      RegisterDivides(Xor(TimesX(r), Word(bits[0])), bits[1..]);
    }
  }

  lemma XorSwap(a: bv32, b: bv32, c: bv32, d: bv32)
    ensures Xor(Xor(a, b), Xor(c, d)) == Xor(Xor(a, c), Xor(b, d))
  {
    hide Xor;
    XorAssociates(a, b, Xor(c, d));
    XorAssociates(b, c, d);
    XorCommutes(b, c);
    XorAssociates(c, b, d);
    XorAssociates(a, c, Xor(b, d));
  }

  lemma WordSum(x: bool, y: bool)
    ensures Word(x != y) == Xor(Word(x), Word(y))
  {
  }

  lemma {:induction false} RemainderLinear(r: bv32, t: bv32, a: Bits, b: Bits)
    requires |a| == |b|
    ensures Remainder(Xor(r, t), Sum(a, b)) == Xor(Remainder(r, a), Remainder(t, b))
    decreases |a|
  {
    hide TimesX, Xor, Word;
    if a != [] {
      TimesXLinear(r, t);
      WordSum(a[0], b[0]);
      XorSwap(TimesX(r), TimesX(t), Word(a[0]), Word(b[0]));
      assert Sum(a, b)[1..] == Sum(a[1..], b[1..]);
      RemainderLinear(Xor(TimesX(r), Word(a[0])), Xor(TimesX(t), Word(b[0])), a[1..], b[1..]);
    }
  }

  lemma XorLast(r: bv32, t: bv32, w: bv32)
    ensures Xor(Xor(r, w), t) == Xor(Xor(r, t), w)
  {
    hide Xor;
    XorAssociates(r, w, t);
    XorCommutes(w, t);
    XorAssociates(r, t, w);
  }

  lemma {:induction false} RegisterLinear(r: bv32, t: bv32, bits: Bits)
    ensures Register(Xor(r, t), bits) == Xor(Register(r, bits), Times(|bits|, t))
    decreases |bits|
  {
    hide TimesX, Xor, Top;
    if bits != [] {
      XorLast(r, t, Top(bits[0]));
      TimesXLinear(Xor(r, Top(bits[0])), t);
      RegisterLinear(TimesX(Xor(r, Top(bits[0]))), TimesX(t), bits[1..]);
    }
  }

  /** The word with the `k` low bits set. */
  function Mask(k: nat): bv32 { if k == 0 then 0 else LowDoubled(Mask(k - 1)) }

  function LowDoubled(m: bv32): bv32 { (m << 1) | 1 }

  lemma MaskValues()
    ensures Mask(8) == 0xFF && Mask(16) == 0xFFFF && Mask(24) == 0xFF_FFFF
    ensures Mask(31) == 0x7FFF_FFFF && Mask(32) == 0xFFFF_FFFF
  {
    assert Mask(4) == 0xF;
    assert Mask(8) == 0xFF;
    assert Mask(12) == 0xFFF;
    assert Mask(16) == 0xFFFF;
    assert Mask(20) == 0xF_FFFF;
    assert Mask(24) == 0xFF_FFFF;
    assert Mask(28) == 0xFFF_FFFF;
  }

  lemma {:induction false} MaskGrows(k: nat, n: nat)
    requires k <= n
    ensures Mask(k) & !Mask(n) == 0
    decreases k
  {
    if k > 0 {
      MaskGrows(k - 1, n - 1);
      ShiftedMask(Mask(k - 1), Mask(n - 1));
    }
  }

  lemma ShiftedMask(a: bv32, b: bv32)
    requires a & !b == 0
    ensures ((a << 1) | 1) & !((b << 1) | 1) == 0
  {
  }

  lemma SmallMask(k: nat)
    requires k <= 31
    ensures Mask(k) & 0x8000_0000 == 0
  {
    MaskGrows(k, 31);
    MaskValues();
    BelowTop(Mask(k));
  }

  lemma BelowTop(w: bv32)
    requires w & !0x7FFF_FFFF == 0
    ensures w & 0x8000_0000 == 0
  {
  }

  lemma NextMask(k: nat)
    requires Mask(k) & 0x8000_0000 == 0
    ensures Xor(TimesX(Mask(k)), 1) == Mask(k + 1)
  {
    var m := Mask(k);
    assert Mask(k + 1) == LowDoubled(m);
    hide Mask;
    NextLow(m);
  }

  lemma NextLow(m: bv32)
    requires m & 0x8000_0000 == 0
    ensures Xor(TimesX(m), 1) == LowDoubled(m)
  {
    assert TimesX(m) == m << 1;
    assert (m << 1) ^ 1 == (m << 1) | 1;
  }

  lemma {:induction false} RemainderOnes(k: nat, n: nat)
    requires k + n <= 32
    ensures Remainder(Mask(k), Ones(n)) == Mask(k + n)
    decreases n
  {
    hide TimesX, Xor, Mask;
    if n > 0 {
      SmallMask(k);
      NextMask(k);
      assert Ones(n)[1..] == Ones(n - 1);
      RemainderOnes(k + 1, n - 1);
    }
  }

  /** RFC 4960 Appendix B: the message times x^32, its first 32 bits complemented. */
  function Dividend(bits: Bits): Bits {
    Sum(bits + Zeros(32), Ones(32) + Zeros(|bits|))
  }

  lemma FromZero(bits: Bits)
    ensures Register(0, bits) == Remainder(0, bits + Zeros(32))
  {
    hide TimesX, Times, Register, Remainder;
    TimesZero(32);
    RegisterDivides(0, bits);
    RemainderZeros(Remainder(0, bits), 32);
    RemainderConcat(0, bits, Zeros(32));
  }

  lemma StartOnes(n: nat)
    ensures Times(n, 0xFFFF_FFFF) == Remainder(0, Ones(32) + Zeros(n))
  {
    hide TimesX, Times, Remainder;
    RemainderConcat(0, Ones(32), Zeros(n));
    RemainderOnes(0, 32);
    MaskValues();
    RemainderZeros(0xFFFF_FFFF, n);
  }

  lemma RegisterIsRemainder(bits: Bits)
    ensures Register(0xFFFF_FFFF, bits) == Remainder(0, Dividend(bits))
  {
    hide TimesX, Times, Register, Remainder, Xor;
    XorZero(0xFFFF_FFFF);
    XorZero(0);
    RegisterLinear(0, 0xFFFF_FFFF, bits);
    FromZero(bits);
    StartOnes(|bits|);
    RemainderLinear(0, 0, bits + Zeros(32), Ones(32) + Zeros(|bits|));
  }

  /** What checksumCrc32C returns. */
  function Crc(m: seq<bv8>): bv32 { Finished(Run(0xFFFF_FFFF, m)) }

  lemma ReversedRun(m: seq<bv8>)
    ensures Reverse(Run(0xFFFF_FFFF, m)) == Remainder(0, Dividend(MessageBits(m)))
  {
    hide Run, Feed, Register, Remainder, Dividend, MessageBits, Reverse;
    RunIsFeed(0xFFFF_FFFF, m);
    FeedReversed(0xFFFF_FFFF, MessageBits(m));
    ReverseConstants();
    RegisterIsRemainder(MessageBits(m));
  }

  /** The table, the loop, the final complement and the byte swap together give the
      complemented remainder, the bits of each byte back in transmission order. */
  lemma CrcIsRemainder(m: seq<bv8>)
    ensures Crc(m) == ReverseEachByte(!Remainder(0, Dividend(MessageBits(m))))
  {
    hide Run, Remainder, Dividend, MessageBits, Reverse, ReverseEachByte, Finished, SwapBytes;
    ReversedRun(m);
    ReverseInPlace(Run(0xFFFF_FFFF, m));
  }
}
