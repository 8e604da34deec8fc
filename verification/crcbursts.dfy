/**
 Which corrupted messages CRC32c is certain to show: every one that differs from the original
 within a burst of at most 32 consecutive bits.
 */
module CrcBursts {
  import opened Crc32c
  import opened CrcDivision

  // ------- no step loses information -------

  lemma NonZeroStep(c: bv32)
    requires c != 0
    ensures BitStep(c) != 0
  {
  }

  lemma XorIsZero(a: bv32, b: bv32)
    ensures Xor(a, b) == 0 <==> a == b
  {
    assert a ^ b == 0 <==> a == b;
  }

  lemma BitStepInjective(a: bv32, b: bv32)
    requires a != b
    ensures BitStep(a) != BitStep(b)
  {
    hide BitStep, Xor;
    XorIsZero(a, b);
    NonZeroStep(Xor(a, b));
    BitStepLinear(a, b);
    XorIsZero(BitStep(a), BitStep(b));
  }

  lemma {:induction false} StepsInjective(n: nat, a: bv32, b: bv32)
    requires a != b
    ensures Steps(n, a) != Steps(n, b)
  {
    hide BitStep;
    if n > 0 {
      BitStepInjective(a, b);
      StepsInjective(n - 1, BitStep(a), BitStep(b));
    }
  }

  lemma XorInjective(a: bv32, b: bv32, w: bv32)
    ensures Xor(a, w) == Xor(b, w) <==> a == b
    ensures Xor(w, a) == Xor(w, b) <==> a == b
  {
  }

  /** The same bits fed to different states leave different states. */
  lemma {:induction false} FeedInjective(a: bv32, b: bv32, bits: Bits)
    requires a != b
    ensures Feed(a, bits) != Feed(b, bits)
    decreases |bits|
  {
    hide BitStep, Xor, Word;
    if bits != [] {
      XorInjective(a, b, Word(bits[0]));
      BitStepInjective(Xor(a, Word(bits[0])), Xor(b, Word(bits[0])));
      FeedInjective(BitStep(Xor(a, Word(bits[0]))), BitStep(Xor(b, Word(bits[0]))), bits[1..]);
    }
  }

  // ------- a burst fits in the register -------

  function Doubled(w: bv32, b: bool): bv32 { Xor(w << 1, Word(b)) }

  /** The first bit lowest. */
  function Packed(bits: Bits): bv32 {
    if bits == [] then 0 else Doubled(Packed(bits[1..]), bits[0])
  }

  predicate Fits(w: bv32, m: bv32) { w & !m == 0 }

  lemma {:induction false} PackedFits(bits: Bits)
    ensures Fits(Packed(bits), Mask(|bits|))
    decreases |bits|
  {
    hide Doubled;
    if bits == [] {
    } else {
      hide Fits;
      PackedFits(bits[1..]);
      assert Mask(|bits|) == LowDoubled(Mask(|bits| - 1));
      hide Mask, LowDoubled;
      DoubledFits(Packed(bits[1..]), Mask(|bits| - 1), bits[0]);
    }
  }

  lemma DoubledFits(w: bv32, m: bv32, b: bool)
    requires Fits(w, m)
    ensures Fits(Doubled(w, b), LowDoubled(m))
  {
    if b { assert ((w << 1) ^ 1) & !((m << 1) | 1) == (w & !m) << 1; }
    else { assert ((w << 1) ^ 0) & !((m << 1) | 1) == (w & !m) << 1; }
  }

  lemma UnderMask(w: bv32, m: bv32)
    requires Fits(w, m) && m & 0x8000_0000 == 0
    ensures w & 0x8000_0000 == 0
  {
  }

  predicate Short(w: bv32) { w & 0x8000_0000 == 0 }

  lemma ShortPacked(bits: Bits)
    requires |bits| <= 31
    ensures Short(Packed(bits))
  {
    hide Packed, Mask, Fits;
    PackedFits(bits);
    SmallMask(|bits|);
    UnderMask(Packed(bits), Mask(|bits|));
  }

  lemma EvenDoubled(w: bv32)
    requires w & 0x8000_0000 == 0
    ensures BitStep(w << 1) == w
  {
  }

  lemma MixedStep(c: bv32, w: bv32, b: bool)
    requires Short(w)
    ensures BitStep(Xor(c, Doubled(w, b))) == Xor(BitStep(Xor(c, Word(b))), w)
  {
    hide BitStep, Xor, Word;
    XorCommutes(w << 1, Word(b));
    XorAssociates(c, Word(b), w << 1);
    BitStepLinear(Xor(c, Word(b)), w << 1);
    EvenDoubled(w);
  }

  /** At most 32 bits act like one word mixed in at once. */
  lemma {:induction false} FeedPacked(c: bv32, bits: Bits)
    requires |bits| <= 32
    ensures Feed(c, bits) == Steps(|bits|, Xor(c, Packed(bits)))
    decreases |bits|
  {
    hide BitStep, Xor, Word, Doubled, Short;
    if bits == [] {
      XorZero(c);
    } else {
      ShortPacked(bits[1..]);
      MixedStep(c, Packed(bits[1..]), bits[0]);
      FeedPacked(BitStep(Xor(c, Word(bits[0]))), bits[1..]);
    }
  }

  lemma FirstBit(v: bv32, w: bv32, a: bool, b: bool)
    requires Short(v) && Short(w) && Doubled(v, a) == Doubled(w, b)
    ensures a == b && v == w
  {
    assert Xor(v << 1, Word(a)) & 1 == Word(a) by { LowestBit(v, a); }
    assert Xor(w << 1, Word(b)) & 1 == Word(b) by { LowestBit(w, b); }
  }

  lemma LowestBit(v: bv32, a: bool)
    ensures Xor(v << 1, Word(a)) & 1 == Word(a)
    ensures Xor(v << 1, Word(a)) >> 1 == v & 0x7FFF_FFFF
  {
  }

  lemma {:induction false} PackedInjective(a: Bits, b: Bits)
    requires |a| == |b| <= 32 && Packed(a) == Packed(b)
    ensures a == b
    decreases |a|
  {
    hide Doubled, Short;
    if a != [] {
      ShortPacked(a[1..]);
      ShortPacked(b[1..]);
      FirstBit(Packed(a[1..]), Packed(b[1..]), a[0], b[0]);
      PackedInjective(a[1..], b[1..]);
      assert a == [a[0]] + a[1..] && b == [b[0]] + b[1..];
    }
  }

  lemma BurstFeed(c: bv32, a: Bits, b: Bits)
    requires |a| == |b| <= 32 && a != b
    ensures Feed(c, a) != Feed(c, b)
  {
    hide Xor, Feed, Packed, Steps;
    if Packed(a) == Packed(b) { PackedInjective(a, b); }
    FeedPacked(c, a);
    FeedPacked(c, b);
    XorInjective(Packed(a), Packed(b), c);
    StepsInjective(|a|, Xor(c, Packed(a)), Xor(c, Packed(b)));
  }

  // ------- and is never missed -------

  lemma FinishedInjective(a: bv32, b: bv32)
    requires a != b
    ensures Finished(a) != Finished(b)
  {
    assert SwapBytes(SwapBytes(!a)) == !a;
    assert SwapBytes(SwapBytes(!b)) == !b;
  }

  /** Two messages whose bits differ only inside a burst of at most 32 have different CRCs. */
  lemma BurstChangesCrc(m: seq<bv8>, n: seq<bv8>, before: Bits, a: Bits, b: Bits, after: Bits)
    requires MessageBits(m) == before + a + after && MessageBits(n) == before + b + after
    requires |a| == |b| <= 32 && a != b
    ensures Crc(m) != Crc(n)
  {
    hide Feed, Run, MessageBits, Finished;
    RunIsFeed(0xFFFF_FFFF, m);
    RunIsFeed(0xFFFF_FFFF, n);
    FeedConcat(0xFFFF_FFFF, before + a, after);
    FeedConcat(0xFFFF_FFFF, before + b, after);
    FeedConcat(0xFFFF_FFFF, before, a);
    FeedConcat(0xFFFF_FFFF, before, b);
    var c := Feed(0xFFFF_FFFF, before);
    BurstFeed(c, a, b);
    FeedInjective(Feed(c, a), Feed(c, b), after);
    FinishedInjective(Run(0xFFFF_FFFF, m), Run(0xFFFF_FFFF, n));
  }

  lemma {:induction false} MessageConcat(m: seq<bv8>, n: seq<bv8>)
    ensures MessageBits(m + n) == MessageBits(m) + MessageBits(n)
    decreases m
  {
    hide LowFirst;
    if m == [] {
      assert m + n == n;
    } else {
      assert (m + n)[1..] == m[1..] + n;
      MessageConcat(m[1..], n);
    }
  }

  lemma ByteBits(d: bv8, e: bv8)
    requires LowFirst(d as bv32, 8) == LowFirst(e as bv32, 8)
    ensures d == e
  {
    hide LowFirst, HalvedBy, Steps, Feed, BitStep, Xor;
    var v, w := d as bv32, e as bv32;
    StepsAreFeeds(0, v, 8);
    StepsAreFeeds(0, w, 8);
    ByteGone(d);
    ByteGone(e);
    XorZero(v);
    XorZero(w);
    if v != w { StepsInjective(8, v, w); }
  }

  lemma {:induction false} MessageBitsInjective(m: seq<bv8>, n: seq<bv8>)
    requires |m| == |n| && MessageBits(m) == MessageBits(n)
    ensures m == n
    decreases m
  {
    hide LowFirst;
    if m != [] {
      var a, b := LowFirst(m[0] as bv32, 8), LowFirst(n[0] as bv32, 8);
      assert a == MessageBits(m)[..8] && b == MessageBits(n)[..8];
      ByteBits(m[0], n[0]);
      assert MessageBits(m[1..]) == MessageBits(m)[8..] && MessageBits(n[1..]) == MessageBits(n)[8..];
      MessageBitsInjective(m[1..], n[1..]);
      assert m == [m[0]] + m[1..] && n == [n[0]] + n[1..];
    }
  }

  /** In particular, messages that differ only within four consecutive bytes. */
  lemma FourBytesChangeCrc(before: seq<bv8>, d: seq<bv8>, e: seq<bv8>, after: seq<bv8>)
    requires |d| == |e| <= 4 && d != e
    ensures Crc(before + d + after) != Crc(before + e + after)
  {
    hide Run, MessageBits, Crc;
    MessageConcat(before + d, after);
    MessageConcat(before + e, after);
    MessageConcat(before, d);
    MessageConcat(before, e);
    if MessageBits(d) == MessageBits(e) { MessageBitsInjective(d, e); }
    BurstChangesCrc(before + d + after, before + e + after,
                    MessageBits(before), MessageBits(d), MessageBits(e), MessageBits(after));
  }
}
