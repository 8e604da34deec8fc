/**
 Combining the checksums of the protocols that follow one protocol in the frame
 (RFC 1071 sections 2(A) and 2(B)).

 The payload is a list of levels: the protocols after this one in its own chain, then
 those after its parent, and so on.  `PayloadCksum` is what protocolFramePayloadCksum
 returns; `PayloadCksumIff` says for which lengths and positions this is the checksum
 of the joined bytes whatever the bytes are.
 */
module PayloadChecksum {
  import opened Bytes
  import opened Checksum

  type Chain = seq<seq<byte>>

  function Join(ms: Chain): seq<byte> {
    if ms == [] then [] else ms[0] + Join(ms[1..])
  }

  function JoinAll(levels: seq<Chain>): seq<byte> {
    if levels == [] then [] else Join(levels[0]) + JoinAll(levels[1..])
  }

  /** The checksum of one member, swapped when it starts at an odd offset. */
  function SwappedCksum(m: seq<byte>, offset: nat): u16 {
    if offset % 2 == 1 then Swap16(Rfc1071(m)) else Rfc1071(m)
  }

  function LaterSum(offset: nat, ms: Chain): nat
    decreases ms
  {
    if ms == [] then 0
    else Inv(SwappedCksum(ms[0], offset)) + LaterSum(offset + |ms[0]|, ms[1..])
  }

  function LevelSum(offset: nat, ms: Chain): nat
    requires ms != []
  {
    Inv(Rfc1071(ms[0])) + LaterSum(offset + |ms[0]|, ms[1..])
  }

  /** The level of the protocol itself, then that of its parent; no level is left when
      there is no parent.  `offset` is where the first member starts in the frame. */
  function PayloadCksum(offset: nat, levels: seq<Chain>): u16
    requires levels != []
    decreases |levels|
  {
    if levels[0] == [] then 0xFFFF
    else
      var sum := LevelSum(offset, levels[0]);
      if |levels| == 1 then Inv(Fold(sum))
      else Inv(Fold(sum + Inv(PayloadCksum(offset + |Join(levels[0])|, levels[1..]))))
  }

  lemma PayloadCksumStep(offset: nat, levels: seq<Chain>)
    requires levels != [] && levels[0] != []
    ensures PayloadCksum(offset, levels)
         == if |levels| == 1 then Inv(Fold(LevelSum(offset, levels[0])))
            else Inv(Fold(LevelSum(offset, levels[0]) +
                          Inv(PayloadCksum(offset + |Join(levels[0])|, levels[1..]))))
  {
  }

  // ------- the weights the code gives to the octets -------

  function LaterWeighted(offset: nat, ms: Chain): nat
    decreases ms
  {
    if ms == [] then 0
    else OctetSum(ms[0], offset % 2 == 0) + LaterWeighted(offset + |ms[0]|, ms[1..])
  }

  function LevelWeighted(offset: nat, ms: Chain): nat
    requires ms != []
  {
    OctetSum(ms[0], true) + LaterWeighted(offset + |ms[0]|, ms[1..])
  }

  function Weighted(offset: nat, levels: seq<Chain>): nat
    decreases |levels|
  {
    if levels == [] || levels[0] == [] then 0
    else
      LevelWeighted(offset, levels[0]) + Weighted(offset + |Join(levels[0])|, levels[1..])
  }

  lemma SwappedIsWeighted(m: seq<byte>, offset: nat)
    ensures Inv(SwappedCksum(m, offset)) == Fold(OctetSum(m, offset % 2 == 0))
  {
    WordSumIsOctetSum(m);
    SwapInv(Fold(WordSum(m)));
    SwapFold(WordSum(m));
    OctetSumShift(m, true);
  }

  lemma {:induction false} LaterSumIsWeighted(offset: nat, ms: Chain)
    ensures Fold(LaterSum(offset, ms)) == Fold(LaterWeighted(offset, ms))
    decreases ms
  {
    if ms != [] {
      var o := offset + |ms[0]|;
      LaterSumIsWeighted(o, ms[1..]);
      var w := OctetSum(ms[0], offset % 2 == 0);
      SwappedIsWeighted(ms[0], offset);
      FoldOfWord(Fold(w));
      FoldSums(Inv(SwappedCksum(ms[0], offset)), w, LaterSum(o, ms[1..]), LaterWeighted(o, ms[1..]));
    }
  }

  lemma LevelIsWeighted(offset: nat, ms: Chain)
    requires ms != []
    ensures Fold(LevelSum(offset, ms)) == Fold(LevelWeighted(offset, ms))
  {
    hide OctetSum, WordSum, Fold, LaterSum, LaterWeighted;
    var o := offset + |ms[0]|;
    WordSumIsOctetSum(ms[0]);
    LaterSumIsWeighted(o, ms[1..]);
    FoldOfWord(Fold(OctetSum(ms[0], true)));
    FoldSums(Inv(Rfc1071(ms[0])), OctetSum(ms[0], true), LaterSum(o, ms[1..]), LaterWeighted(o, ms[1..]));
  }

  lemma {:induction false} PayloadCksumIsWeighted(offset: nat, levels: seq<Chain>)
    requires levels != []
    ensures Inv(PayloadCksum(offset, levels)) == Fold(Weighted(offset, levels))
    decreases |levels|
  {
    hide LevelSum, LevelWeighted, Join;
    if levels[0] != [] {
      LevelIsWeighted(offset, levels[0]);
      if |levels| > 1 {
        var o := offset + |Join(levels[0])|;
        PayloadCksumIsWeighted(o, levels[1..]);
        var w := Weighted(o, levels[1..]);
        FoldOfWord(Fold(w));
        FoldSums(LevelSum(offset, levels[0]), LevelWeighted(offset, levels[0]), Fold(w), w);
      }
    }
  }

  // ------- the weights the octets should have -------

  function TrueLater(base: nat, offset: nat, ms: Chain): nat
    requires base <= offset
    decreases ms
  {
    if ms == [] then 0
    else OctetSum(ms[0], (offset - base) % 2 == 0) + TrueLater(base, offset + |ms[0]|, ms[1..])
  }

  function TrueWeighted(base: nat, offset: nat, levels: seq<Chain>): nat
    requires base <= offset
    decreases |levels|
  {
    if levels == [] then 0
    else TrueLater(base, offset, levels[0]) + TrueWeighted(base, offset + |Join(levels[0])|, levels[1..])
  }

  lemma {:induction false} TrueLaterIsJoined(base: nat, offset: nat, ms: Chain)
    requires base <= offset
    ensures TrueLater(base, offset, ms) == OctetSum(Join(ms), (offset - base) % 2 == 0)
    decreases ms
  {
    if ms != [] {
      TrueLaterIsJoined(base, offset + |ms[0]|, ms[1..]);
      OctetSumConcat(ms[0], Join(ms[1..]), (offset - base) % 2 == 0);
    }
  }

  lemma NoOctets(high: bool)
    ensures OctetSum([], high) == 0
  {
  }

  lemma Parity(d: nat, n: nat)
    ensures (d + n) % 2 == 0 <==> (if n % 2 == 0 then d % 2 == 0 else d % 2 != 0)
  {
  }

  lemma {:induction false} TrueIsJoined(base: nat, offset: nat, levels: seq<Chain>)
    requires base <= offset
    ensures TrueWeighted(base, offset, levels) == OctetSum(JoinAll(levels), (offset - base) % 2 == 0)
    decreases |levels|
  {
    hide TrueLater, Join, OctetSum;
    if levels == [] {
      NoOctets((offset - base) % 2 == 0);
    } else {
      var n := |Join(levels[0])|;
      TrueLaterIsJoined(base, offset, levels[0]);
      TrueIsJoined(base, offset + n, levels[1..]);
      OctetSumConcat(Join(levels[0]), JoinAll(levels[1..]), (offset - base) % 2 == 0);
      Parity(offset - base, n);
    }
  }

  // ------- for which shapes the two agree -------

  type Lens = seq<nat>

  function Total(lens: Lens): nat { if lens == [] then 0 else lens[0] + Total(lens[1..]) }

  predicate AllEmpty(shape: seq<Lens>) {
    shape == [] || (Total(shape[0]) == 0 && AllEmpty(shape[1..]))
  }

  /** Lengths only: nothing follows an empty level; the first member of each level, which is
      never swapped, lies an even distance from the start of the payload; and the others,
      swapped by their offset in the frame, need that start to be even. */
  predicate ShapeOk(base: nat, offset: nat, shape: seq<Lens>)
    requires base <= offset
    decreases |shape|
  {
    shape == []
    || (if shape[0] == [] then AllEmpty(shape)
        else
          && (shape[0][0] == 0 || (offset - base) % 2 == 0)
          && (Total(shape[0][1..]) == 0 || base % 2 == 0)
          && ShapeOk(base, offset + Total(shape[0]), shape[1..]))
  }

  predicate ChainOf(ms: Chain, lens: Lens) {
    |ms| == |lens| && forall i :: 0 <= i < |ms| ==> |ms[i]| == lens[i]
  }

  predicate LevelsOf(levels: seq<Chain>, shape: seq<Lens>) {
    |levels| == |shape| && forall i :: 0 <= i < |levels| ==> ChainOf(levels[i], shape[i])
  }

  ghost predicate Combines(offset: nat, shape: seq<Lens>)
    requires shape != []
  {
    forall levels: seq<Chain> :: LevelsOf(levels, shape) ==> PayloadCksum(offset, levels) == Rfc1071(JoinAll(levels))
  }

  lemma {:induction false} JoinLength(ms: Chain, lens: Lens)
    requires ChainOf(ms, lens)
    ensures |Join(ms)| == Total(lens)
  {
    if ms != [] { JoinLength(ms[1..], lens[1..]); }
  }

  lemma {:induction false} EmptyWeighs(ms: Chain, lens: Lens, base: nat, offset: nat)
    requires ChainOf(ms, lens) && Total(lens) == 0 && base <= offset
    ensures LaterWeighted(offset, ms) == TrueLater(base, offset, ms) == 0
    decreases ms
  {
    if ms != [] { EmptyWeighs(ms[1..], lens[1..], base, offset); }
  }

  lemma {:induction false} AllEmptyWeighs(levels: seq<Chain>, shape: seq<Lens>, base: nat, offset: nat)
    requires LevelsOf(levels, shape) && AllEmpty(shape) && base <= offset
    ensures TrueWeighted(base, offset, levels) == 0
    decreases |levels|
  {
    if levels != [] {
      EmptyWeighs(levels[0], shape[0], base, offset);
      JoinLength(levels[0], shape[0]);
      AllEmptyWeighs(levels[1..], shape[1..], base, offset);
    }
  }

  lemma {:induction false} LaterAgree(base: nat, offset: nat, ms: Chain, lens: Lens)
    requires ChainOf(ms, lens) && base <= offset
    requires Total(lens) == 0 || base % 2 == 0
    ensures LaterWeighted(offset, ms) == TrueLater(base, offset, ms)
    decreases ms
  {
    if Total(lens) == 0 {
      EmptyWeighs(ms, lens, base, offset);
    } else if ms != [] {
      LaterAgree(base, offset + |ms[0]|, ms[1..], lens[1..]);
    }
  }

  lemma {:induction false} WeightsAgree(base: nat, offset: nat, levels: seq<Chain>, shape: seq<Lens>)
    requires LevelsOf(levels, shape) && base <= offset && ShapeOk(base, offset, shape)
    ensures Weighted(offset, levels) == TrueWeighted(base, offset, levels)
    decreases |levels|
  {
    hide Join;
    if levels != [] {
      JoinLength(levels[0], shape[0]);
      if levels[0] == [] {
        AllEmptyWeighs(levels, shape, base, offset);
      } else {
        LaterAgree(base, offset + |levels[0][0]|, levels[0][1..], shape[0][1..]);
        WeightsAgree(base, offset + Total(shape[0]), levels[1..], shape[1..]);
      }
    }
  }

  // ------- and only for those: a single octet 1 among zeros tells -------

  /** `n` octets, all zero except that the first is `b`. */
  function Octets(n: nat, b: byte): (s: seq<byte>)
    ensures |s| == n
  {
    seq(n, i => if i == 0 then b else 0)
  }

  lemma {:induction false} ZeroOctets(s: seq<byte>, high: bool)
    requires forall i :: 0 <= i < |s| ==> s[i] == 0
    ensures OctetSum(s, high) == 0
  {
    if s != [] { ZeroOctets(s[1..], !high); }
  }

  lemma UnitOctets(n: nat, high: bool)
    requires n > 0
    ensures OctetSum(Octets(n, 1), high) == if high then 0x100 else 1
  {
    ZeroOctets(Octets(n, 1)[1..], !high);
  }

  function ZeroChain(lens: Lens): (ms: Chain)
    ensures ChainOf(ms, lens)
  {
    seq(|lens|, i requires 0 <= i < |lens| => Octets(lens[i], 0))
  }

  function ZeroLevels(shape: seq<Lens>): (levels: seq<Chain>)
    ensures LevelsOf(levels, shape)
  {
    seq(|shape|, i requires 0 <= i < |shape| => ZeroChain(shape[i]))
  }

  lemma {:induction false} ZeroChainWeighs(lens: Lens, base: nat, offset: nat)
    requires base <= offset
    ensures LaterWeighted(offset, ZeroChain(lens)) == TrueLater(base, offset, ZeroChain(lens)) == 0
    decreases lens
  {
    if lens != [] {
      ZeroOctets(Octets(lens[0], 0), offset % 2 == 0);
      ZeroOctets(Octets(lens[0], 0), (offset - base) % 2 == 0);
      assert ZeroChain(lens)[1..] == ZeroChain(lens[1..]);
      ZeroChainWeighs(lens[1..], base, offset + lens[0]);
    }
  }

  lemma {:induction false} ZeroLevelsWeigh(shape: seq<Lens>, base: nat, offset: nat)
    requires base <= offset
    ensures Weighted(offset, ZeroLevels(shape)) == TrueWeighted(base, offset, ZeroLevels(shape)) == 0
    decreases |shape|
  {
    hide OctetSum, LaterWeighted, TrueLater, Join, LevelWeighted;
    if shape != [] {
      var zeros := ZeroLevels(shape);
      assert zeros[1..] == ZeroLevels(shape[1..]);
      ZeroChainWeighs(shape[0], base, offset);
      ZeroLevelsWeigh(shape[1..], base, offset + |Join(zeros[0])|);
      if shape[0] != [] {
        ZeroOctets(Octets(shape[0][0], 0), true);
        FirstApart(zeros[0], offset, base, shape[0], Octets(shape[0][0], 0));
      }
    }
  }

  /** A level whose members after the first are zero. */
  lemma FirstApart(ms: Chain, offset: nat, base: nat, lens: Lens, first: seq<byte>)
    requires lens != [] && |first| == lens[0] && base <= offset
    requires ms == [first] + ZeroChain(lens)[1..]
    ensures LevelWeighted(offset, ms) == OctetSum(first, true)
    ensures TrueLater(base, offset, ms) == OctetSum(first, (offset - base) % 2 == 0)
  {
    assert ms[1..] == ZeroChain(lens[1..]);
    ZeroChainWeighs(lens[1..], base, offset + |first|);
  }

  lemma {:induction false} UnitChain(lens: Lens, base: nat, offset: nat) returns (ms: Chain)
    requires Total(lens) > 0 && base <= offset
    ensures ChainOf(ms, lens)
    ensures TrueLater(base, offset, ms) == 1 || TrueLater(base, offset, ms) == 0x100
    ensures base % 2 == 1 ==> LaterWeighted(offset, ms) == 0x101 - TrueLater(base, offset, ms)
    decreases lens
  {
    hide OctetSum, Octets, ZeroChain;
    if lens[0] > 0 {
      ms := UnitFirst(lens, base, offset);
    } else {
      var rest := UnitChain(lens[1..], base, offset);
      ms := [[]] + rest;
      assert ms[1..] == rest;
      NoOctets(offset % 2 == 0);
      NoOctets((offset - base) % 2 == 0);
    }
  }

  lemma UnitFirst(lens: Lens, base: nat, offset: nat) returns (ms: Chain)
    requires lens != [] && lens[0] > 0 && base <= offset
    ensures ChainOf(ms, lens)
    ensures TrueLater(base, offset, ms) == 1 || TrueLater(base, offset, ms) == 0x100
    ensures base % 2 == 1 ==> LaterWeighted(offset, ms) == 0x101 - TrueLater(base, offset, ms)
  {
    hide OctetSum, Octets, ZeroChain;
    ms := [Octets(lens[0], 1)] + ZeroChain(lens[1..]);
    assert ms[1..] == ZeroChain(lens[1..]);
    UnitOctets(lens[0], offset % 2 == 0);
    UnitOctets(lens[0], (offset - base) % 2 == 0);
    ZeroChainWeighs(lens[1..], base, offset + lens[0]);
    assert LaterWeighted(offset, ms) == if offset % 2 == 0 then 0x100 else 1;
    assert TrueLater(base, offset, ms) == if (offset - base) % 2 == 0 then 0x100 else 1;
    Parity(offset - base, base);
  }

  /** Some octet follows, but nothing that does is counted. */
  lemma {:induction false} Uncounted(shape: seq<Lens>, base: nat, offset: nat) returns (levels: seq<Chain>)
    requires !AllEmpty(shape) && base <= offset
    ensures LevelsOf(levels, shape) && 0 < TrueWeighted(base, offset, levels) <= 0x100
    decreases |shape|
  {
    if Total(shape[0]) > 0 {
      var ms := UnitChain(shape[0], base, offset);
      levels := [ms] + ZeroLevels(shape[1..]);
      assert levels[1..] == ZeroLevels(shape[1..]);
      ZeroLevelsWeigh(shape[1..], base, offset + |Join(ms)|);
    } else {
      var zeros := ZeroChain(shape[0]);
      JoinLength(zeros, shape[0]);
      var rest := Uncounted(shape[1..], base, offset);
      ZeroChainWeighs(shape[0], base, offset);
      levels := [zeros] + rest;
      assert levels[1..] == rest;
    }
  }

  /** The weights of a level followed by zero levels are those of the level. */
  lemma LevelAlone(ms: Chain, shape: seq<Lens>, base: nat, offset: nat)
    requires shape != [] && shape[0] != [] && ChainOf(ms, shape[0]) && base <= offset
    ensures var levels := [ms] + ZeroLevels(shape[1..]);
            && LevelsOf(levels, shape)
            && Weighted(offset, levels) == LevelWeighted(offset, ms)
            && TrueWeighted(base, offset, levels) == TrueLater(base, offset, ms)
  {
    var levels := [ms] + ZeroLevels(shape[1..]);
    assert levels[1..] == ZeroLevels(shape[1..]);
    ZeroLevelsWeigh(shape[1..], base, offset + |Join(ms)|);
  }

  /** The first member starts an odd distance from the start of the payload. */
  lemma OddFirst(lens: Lens, base: nat, offset: nat) returns (ms: Chain)
    requires lens != [] && lens[0] > 0 && base <= offset && (offset - base) % 2 == 1
    ensures ChainOf(ms, lens)
    ensures LevelWeighted(offset, ms) == 0x100 && TrueLater(base, offset, ms) == 1
  {
    var first := Octets(lens[0], 1);
    ms := [first] + ZeroChain(lens)[1..];
    FirstApart(ms, offset, base, lens, first);
    UnitOctets(lens[0], true);
    UnitOctets(lens[0], false);
  }

  /** A later member is swapped by its offset in the frame although the payload starts at an odd one. */
  lemma OddBase(lens: Lens, base: nat, offset: nat) returns (ms: Chain)
    requires lens != [] && Total(lens[1..]) > 0 && base <= offset && base % 2 == 1
    ensures ChainOf(ms, lens)
    ensures TrueLater(base, offset, ms) == 1 || TrueLater(base, offset, ms) == 0x100
    ensures LevelWeighted(offset, ms) == 0x101 - TrueLater(base, offset, ms)
  {
    var first := Octets(lens[0], 0);
    var rest := UnitChain(lens[1..], base, offset + lens[0]);
    ms := [first] + rest;
    assert ms[1..] == rest;
    ZeroOctets(first, true);
    ZeroOctets(first, false);
  }

  lemma {:induction false} Witness(shape: seq<Lens>, base: nat, offset: nat) returns (levels: seq<Chain>)
    requires base <= offset && !ShapeOk(base, offset, shape)
    ensures LevelsOf(levels, shape)
    ensures Weighted(offset, levels) != TrueWeighted(base, offset, levels)
    ensures Weighted(offset, levels) <= 0x100 && TrueWeighted(base, offset, levels) <= 0x100
    decreases |shape|
  {
    var lens := shape[0];
    if lens == [] {
      levels := Uncounted(shape, base, offset);
    } else if lens[0] > 0 && (offset - base) % 2 == 1 {
      var ms := OddFirst(lens, base, offset);
      LevelAlone(ms, shape, base, offset);
      levels := [ms] + ZeroLevels(shape[1..]);
    } else if Total(lens[1..]) > 0 && base % 2 == 1 {
      var ms := OddBase(lens, base, offset);
      LevelAlone(ms, shape, base, offset);
      levels := [ms] + ZeroLevels(shape[1..]);
    } else {
      var rest := Witness(shape[1..], base, offset + Total(lens));
      levels := ZeroLevelFirst(shape, base, offset, rest);
    }
  }

  lemma ZeroLevelFirst(shape: seq<Lens>, base: nat, offset: nat, rest: seq<Chain>) returns (levels: seq<Chain>)
    requires shape != [] && shape[0] != [] && LevelsOf(rest, shape[1..]) && base <= offset
    ensures LevelsOf(levels, shape)
    ensures Weighted(offset, levels) == Weighted(offset + Total(shape[0]), rest)
    ensures TrueWeighted(base, offset, levels) == TrueWeighted(base, offset + Total(shape[0]), rest)
  {
    var lens := shape[0];
    var zeros := ZeroChain(lens);
    JoinLength(zeros, lens);
    levels := [zeros] + rest;
    assert levels[1..] == rest;
    ZeroChainWeighs(lens, base, offset);
    ZeroOctets(Octets(lens[0], 0), true);
    FirstApart(zeros, offset, base, lens, Octets(lens[0], 0));
  }

  lemma CombinesLevels(offset: nat, levels: seq<Chain>, shape: seq<Lens>)
    requires LevelsOf(levels, shape) && shape != [] && ShapeOk(offset, offset, shape)
    ensures PayloadCksum(offset, levels) == Rfc1071(JoinAll(levels))
  {
    PayloadCksumIsWeighted(offset, levels);
    WeightsAgree(offset, offset, levels, shape);
    TrueIsJoined(offset, offset, levels);
    WordSumIsOctetSum(JoinAll(levels));
  }

  /** The combined checksum is the checksum of the joined bytes, for all bytes, if and only
      if the lengths keep to `ShapeOk`. */
  lemma PayloadCksumIff(offset: nat, shape: seq<Lens>)
    requires shape != []
    ensures Combines(offset, shape) <==> ShapeOk(offset, offset, shape)
  {
    if ShapeOk(offset, offset, shape) {
      forall levels: seq<Chain> | LevelsOf(levels, shape)
        ensures PayloadCksum(offset, levels) == Rfc1071(JoinAll(levels))
      {
        CombinesLevels(offset, levels, shape);
      }
    } else {
      var levels := Witness(shape, offset, offset);
      PayloadCksumIsWeighted(offset, levels);
      TrueIsJoined(offset, offset, levels);
      WordSumIsOctetSum(JoinAll(levels));
      FoldOfWord(Weighted(offset, levels));
      FoldOfWord(TrueWeighted(offset, offset, levels));
      assert PayloadCksum(offset, levels) != Rfc1071(JoinAll(levels));
    }
  }

  /** One chain with no parent: enough that it starts at an even offset. */
  lemma EvenStartCombines(offset: nat, ms: Chain)
    requires offset % 2 == 0
    ensures PayloadCksum(offset, [ms]) == Rfc1071(Join(ms))
  {
    var lens := seq(|ms|, i requires 0 <= i < |ms| => |ms[i]|);
    assert ChainOf(ms, lens);
    assert ms == [] ==> lens == [];
    CombinesLevels(offset, [ms], [lens]);
    assert JoinAll([ms]) == Join(ms);
  }
}
