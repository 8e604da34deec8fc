/**
 What a receiver makes of the checksums: it adds up the 16-bit words it is to cover, the
 checksum among them, and accepts when the one's complement sum is all ones (RFC 1071
 section 1, RFC 791 section 3.1, RFC 4443 section 2.3).
 */
module Receiver {
  import opened Options
  import opened Bits
  import opened Bytes
  import opened FrameBuilder
  import opened Packing
  import opened VariableFields
  import opened CksumField
  import opened Checksum
  import opened PayloadChecksum

  /** The receiver's test on the sum of the words. */
  predicate Accepts(sum: nat) { Fold(sum) == 0xFFFF }

  // ------- the arithmetic of inserting a checksum -------

  lemma FoldZero(n: nat)
    ensures Fold(n) == 0xFFFF <==> n > 0 && n % 0xFFFF == 0
  {
    if n > 0 { FoldMod(n); }
  }

  lemma InvFold(n: nat)
    ensures (Inv(Fold(n)) + n) % 0xFFFF == 0
    ensures Inv(Fold(n)) == 0 <==> n > 0 && n % 0xFFFF == 0
  {
    FoldZero(n);
    if n > 0 {
      FoldMod(n);
      var q := (n - 1) / 0xFFFF;
      assert Inv(Fold(n)) + n == 0xFFFF * (q + 1);
    }
  }

  /** What the sender believed the rest to add up to is what it does, as far as one's complement
      sums tell. */
  predicate Right(own: nat, believed: nat, actual: nat) {
    actual % 0xFFFF == believed % 0xFFFF && (own + actual == 0 ==> believed == 0)
  }

  /** The sender takes the complement of `own + believed`; the receiver adds `own`, the
      checksum and what is really there. */
  lemma InsertedAcceptsIff(own: nat, believed: nat, actual: nat)
    ensures Accepts(own + Inv(Fold(own + believed)) + actual)
        <==> Right(own, believed, actual)
  {
    var cks := Inv(Fold(own + believed));
    InvFold(own + believed);
    FoldZero(own + cks + actual);
    SameResidue(own + cks, believed, actual);
  }

  lemma SameResidue(a: nat, b: nat, c: nat)
    requires (a + b) % 0xFFFF == 0
    ensures (a + c) % 0xFFFF == 0 <==> c % 0xFFFF == b % 0xFFFF
  {
    var i, j, k := a / 0xFFFF, b / 0xFFFF, c / 0xFFFF;
    assert (a % 0xFFFF + b % 0xFFFF) % 0xFFFF == 0 by { ModPlus(a % 0xFFFF + b % 0xFFFF, i + j); }
    assert (a + c) % 0xFFFF == (a % 0xFFFF + c % 0xFFFF) % 0xFFFF by { ModPlus(a % 0xFFFF + c % 0xFFFF, i + k); }
  }

  lemma ReadBack(cks: u16)
    ensures FromBe(ToBe(cks, 2)) == cks
    ensures ToBe(cks, 2) == [cks / 0x100, cks % 0x100]
  {
    assert ToBe(cks / 0x100, 1) == ToBe(0, 0) + [cks / 0x100];
    hide ToBe, FromBe, Pow2;
    FromToBe(cks, 2);
    Pow2Values();
  }

  lemma AddsUp(cks: u16)
    ensures OctetSum(ToBe(cks, 2), true) == cks
  {
    ReadBack(cks);
    assert [cks / 0x100, cks % 0x100][1..] == [cks % 0x100];
    assert OctetSum([cks % 0x100], false) == cks % 0x100 + OctetSum([], true);
  }

  /** Writing a checksum over zeros at an even offset adds it to the sum. */
  lemma SplicedSum(a: seq<byte>, o: nat, cks: u16)
    requires o % 2 == 0 && o + 2 <= |a| && a[o..o + 2] == [0, 0]
    ensures OctetSum(a[..o] + ToBe(cks, 2) + a[o + 2..], true) == OctetSum(a, true) + cks
  {
    hide OctetSum, ToBe;
    SumOfThree(a[..o], ToBe(cks, 2), a[o + 2..]);
    SumOfThree(a[..o], a[o..o + 2], a[o + 2..]);
    assert a == a[..o] + a[o..o + 2] + a[o + 2..];
    AddsUp(cks);
    AddsUp(0);
    TwoZeros();
  }

  lemma TwoZeros()
    ensures ToBe(0, 2) == [0, 0]
  {
    assert ToBe(0, 1) == ToBe(0, 0) + [0];
  }

  lemma SumOfThree(a: seq<byte>, b: seq<byte>, c: seq<byte>)
    requires |a| % 2 == 0 && |b| % 2 == 0
    ensures OctetSum(a + b + c, true) == OctetSum(a, true) + OctetSum(b, true) + OctetSum(c, true)
  {
    hide OctetSum;
    OctetSumConcat(a + b, c, true);
    OctetSumConcat(a, b, true);
  }

  // ------- a header with a checksum of its own -------

  /** The words of the frame that is sent add up to those of the zeroed frame and the checksum. */
  lemma EmittedSum(fields: seq<Field>, zeroed: seq<Field>, k: nat, cks: u16,
                   vfs: seq<VariableField>, rnds: seq<nat>, rnds': seq<nat>, i: nat)
    requires AllEncoded(fields) && HasCksum(fields, k) && LayoutOk(Sizes(fields)) && CksumAt(fields, k) % 2 == 0
    requires fields[k].value == ToBe(cks, 2)
    requires |zeroed| == |fields| && PreparedAll(zeroed, true) == PreparedAll(fields, true)
    requires Countable(vfs) && NoRandom(vfs) && |rnds| == |rnds'| == |vfs|
    requires Spared(vfs, (TotalBits(Sizes(fields)) + 7) / 8, CksumAt(fields, k))
    ensures AllEncoded(PreparedAll(zeroed, true)) && AllEncoded(PreparedAll(fields, false))
    ensures OctetSum(FrameValue(fields, vfs, rnds', i, false), true)
         == OctetSum(FrameValue(zeroed, vfs, rnds, i, true), true) + cks
    ensures |FrameValue(fields, vfs, rnds', i, false)| == (TotalBits(Sizes(fields)) + 7) / 8
  {
    hide VariedAll, Packed, Masked, OctetSum, TotalBits, LayoutOk, ToBe;
    CksumSpliced(fields, k, vfs, rnds, rnds', i);
    var a := FrameValue(zeroed, vfs, rnds, i, true);
    assert a == FrameValue(fields, vfs, rnds, i, true);
    SplicedSum(a, CksumAt(fields, k), cks);
  }

  // ------- the checksum over a message, its payload and a pseudo header -------

  function PseudoPart(pseudo: Option<u16>): u16 {
    if pseudo.Some? then Inv(pseudo.value) else 0
  }

  function Combined(own: u16, payload: u16, pseudo: Option<u16>): u16 {
    Inv(Fold(Inv(own) + Inv(payload) + PseudoPart(pseudo)))
  }

  /** The checksum case of fieldData in ICMP, and CksumTcpUdp: the checksums of the parts are
      complemented, added and folded. */
  method CombineCksums(own: u16, payload: u16, pseudo: Option<u16>) returns (cksum: u16)
    ensures cksum == Combined(own, payload, pseudo)
  {
    var sum: nat := 0;
    sum := sum + Inv(own);
    sum := sum + Inv(payload);
    if pseudo.Some? {
      sum := sum + Inv(pseudo.value);
    }
    var folded := FoldCarries(sum);
    cksum := Inv(folded);
  }

  /** The checksum stands for the words of the pseudo header `header`. */
  predicate Covers(pseudo: Option<u16>, header: seq<byte>) {
    |header| % 2 == 0 && Fold(PseudoPart(pseudo)) == Fold(WordSum(header))
  }

  lemma CombinedIsSum(own: seq<byte>, believed: u16, pseudo: Option<u16>, header: seq<byte>)
    requires Covers(pseudo, header)
    ensures Combined(Rfc1071(own), Inv(believed), pseudo)
         == Inv(Fold(OctetSum(header, true) + OctetSum(own, true) + believed))
  {
    hide OctetSum, WordSum, Fold;
    WordSumIsOctetSum(own);
    WordSumIsOctetSum(header);
    FoldOfWord(Fold(OctetSum(own, true)));
    FoldSums(Fold(OctetSum(own, true)), OctetSum(own, true), PseudoPart(pseudo), OctetSum(header, true));
    FoldAdd(Fold(OctetSum(own, true)) + PseudoPart(pseudo), believed);
    FoldAdd(OctetSum(own, true) + OctetSum(header, true), believed);
  }

  /** Checksums of parts combine to the checksum of the whole. */
  lemma CombinedIsRfc1071(header: seq<byte>, own: seq<byte>, payload: seq<byte>, pseudo: Option<u16>)
    requires Covers(pseudo, header) && |own| % 2 == 0
    ensures Combined(Rfc1071(own), Rfc1071(payload), pseudo) == Rfc1071(header + own + payload)
  {
    hide OctetSum, WordSum, Fold, Combined;
    var sum := OctetSum(header, true) + OctetSum(own, true);
    CombinedIsSum(own, Fold(WordSum(payload)), pseudo, header);
    FoldAdd(WordSum(payload), sum);
    WordSumIsOctetSum(payload);
    ReceivedSum(header, own, payload);
  }

  /** What the receiver adds up. */
  lemma ReceivedSum(header: seq<byte>, message: seq<byte>, payload: seq<byte>)
    requires |header| % 2 == 0 && |message| % 2 == 0
    ensures WordSum(header + message + payload)
         == OctetSum(header, true) + OctetSum(message, true) + OctetSum(payload, true)
  {
    hide OctetSum, WordSum;
    SumOfThree(header, message, payload);
    WordSumIsOctetSum(header + message + payload);
  }

  /** A message whose checksum was combined from the parts is accepted exactly when the
      payload checksum is right for the payload that follows. */
  lemma MessageAcceptsIff(header: seq<byte>, zeroed: seq<byte>, message: seq<byte>, payload: seq<byte>,
                          believed: u16, pseudo: Option<u16>)
    requires Covers(pseudo, header) && |message| % 2 == 0
    requires OctetSum(message, true) == OctetSum(zeroed, true) + Combined(Rfc1071(zeroed), Inv(believed), pseudo)
    ensures Accepts(WordSum(header + message + payload))
        <==> Right(OctetSum(header, true) + OctetSum(zeroed, true), believed, OctetSum(payload, true))
  {
    hide OctetSum, WordSum, Fold, Combined, Rfc1071, Accepts, Right;
    var (own, actual) := (OctetSum(header, true) + OctetSum(zeroed, true), OctetSum(payload, true));
    var cks := Inv(Fold(own + believed));
    CombinedIsSum(zeroed, believed, pseudo, header);
    ReceivedSum(header, message, payload);
    InsertedAcceptsIff(own, believed, actual);
  }

  lemma CombinedIs(own: seq<byte>, believed: u16, pseudo: Option<u16>)
    ensures Combined(Rfc1071(own), Inv(believed), pseudo)
         == Inv(Fold(OctetSum(own, true) + (believed + PseudoPart(pseudo))))
  {
    hide OctetSum, WordSum, Fold;
    WordSumIsOctetSum(own);
    FoldOfWord(Fold(OctetSum(own, true)));
    FoldAdd(OctetSum(own, true), believed + PseudoPart(pseudo));
  }

  lemma PseudoRightIff(h: nat, z: nat, p: nat, b: nat, a: nat)
    requires h > 0 && a % 0xFFFF == b % 0xFFFF
    ensures Right(z, b + p, h + a) <==> h % 0xFFFF == p % 0xFFFF
  {
    var (i, j) := (a / 0xFFFF, b / 0xFFFF);
    ModPlus(h + a % 0xFFFF, i);
    ModPlus(p + b % 0xFFFF, j);
    SameShift(h, p, a % 0xFFFF);
  }

  lemma SameShift(h: nat, p: nat, r: nat)
    ensures (h + r) % 0xFFFF == (p + r) % 0xFFFF <==> h % 0xFFFF == p % 0xFFFF
  {
    var (i, j) := ((h + r) / 0xFFFF, (p + r) / 0xFFFF);
    if (h + r) % 0xFFFF == (p + r) % 0xFFFF {
      assert h - p == 0xFFFF * (i - j);
      if i >= j { ModPlus(p, i - j); } else { ModPlus(h, j - i); }
    }
    if h % 0xFFFF == p % 0xFFFF {
      var (k, l) := (h / 0xFFFF, p / 0xFFFF);
      ModPlus(h % 0xFFFF + r, k);
      ModPlus(p % 0xFFFF + r, l);
    }
  }

  /** Over a payload whose checksum is right, a message is accepted exactly when its pseudo-header
      checksum stands for the pseudo header that the receiver puts in front. */
  lemma PseudoAcceptsIff(header: seq<byte>, zeroed: seq<byte>, message: seq<byte>, payload: seq<byte>,
                         believed: u16, pseudo: Option<u16>)
    requires |header| % 2 == 0 && WordSum(header) > 0 && |message| % 2 == 0
    requires OctetSum(message, true) == OctetSum(zeroed, true) + Combined(Rfc1071(zeroed), Inv(believed), pseudo)
    requires OctetSum(payload, true) % 0xFFFF == believed % 0xFFFF
    ensures Accepts(WordSum(header + message + payload))
        <==> WordSum(header) % 0xFFFF == PseudoPart(pseudo) % 0xFFFF
  {
    hide OctetSum, WordSum, Fold, Combined, Rfc1071, Accepts, Right, PseudoPart;
    var (h, z, p) := (OctetSum(header, true), OctetSum(zeroed, true), PseudoPart(pseudo));
    WordSumIsOctetSum(header);
    CombinedIs(zeroed, believed, pseudo);
    ReceivedSum(header, message, payload);
    InsertedAcceptsIff(z, believed + p, h + OctetSum(payload, true));
    PseudoRightIff(h, z, p, believed, OctetSum(payload, true));
  }

  /** Lengths that keep to `ShapeOk` make the payload checksum right. */
  lemma ShapeCounts(offset: nat, levels: seq<Chain>, shape: seq<Lens>)
    requires levels != [] && LevelsOf(levels, shape) && ShapeOk(offset, offset, shape)
    ensures OctetSum(JoinAll(levels), true) % 0xFFFF == Inv(PayloadCksum(offset, levels)) % 0xFFFF
    ensures OctetSum(JoinAll(levels), true) == 0 ==> Inv(PayloadCksum(offset, levels)) == 0
  {
    hide OctetSum, WordSum, PayloadCksum, ShapeOk, JoinAll;
    CombinesLevels(offset, levels, shape);
    WordSumIsOctetSum(JoinAll(levels));
    FoldMod(OctetSum(JoinAll(levels), true));
  }

  /** A payload of lengths that keep to `ShapeOk` is accepted, whatever its bytes. */
  lemma ShapeAccepts(header: seq<byte>, zeroed: seq<byte>, message: seq<byte>, offset: nat,
                     levels: seq<Chain>, shape: seq<Lens>, pseudo: Option<u16>)
    requires Covers(pseudo, header) && |message| % 2 == 0
    requires levels != [] && LevelsOf(levels, shape) && ShapeOk(offset, offset, shape)
    requires OctetSum(message, true)
          == OctetSum(zeroed, true) + Combined(Rfc1071(zeroed), PayloadCksum(offset, levels), pseudo)
    ensures Accepts(WordSum(header + message + JoinAll(levels)))
  {
    hide OctetSum, WordSum, Combined, PayloadCksum, ShapeOk, JoinAll, Accepts, Covers;
    var believed := Inv(PayloadCksum(offset, levels));
    assert Inv(believed) == PayloadCksum(offset, levels);
    ShapeCounts(offset, levels, shape);
    MessageAcceptsIff(header, zeroed, message, JoinAll(levels), believed, pseudo);
  }

  /** Any other lengths have bytes whose checksum is off. */
  lemma ShapeMiscounts(shape: seq<Lens>, offset: nat) returns (levels: seq<Chain>)
    requires shape != [] && !ShapeOk(offset, offset, shape)
    ensures LevelsOf(levels, shape)
    ensures OctetSum(JoinAll(levels), true) % 0xFFFF != Inv(PayloadCksum(offset, levels)) % 0xFFFF
  {
    hide OctetSum, Weighted, TrueWeighted, PayloadCksum, JoinAll;
    levels := Witness(shape, offset, offset);
    PayloadCksumIsWeighted(offset, levels);
    FoldOfWord(Weighted(offset, levels));
    TrueIsJoined(offset, offset, levels);
  }

  lemma ShapeRefused(header: seq<byte>, zeroed: seq<byte>, message: seq<byte>, offset: nat,
                     levels: seq<Chain>, pseudo: Option<u16>)
    requires Covers(pseudo, header) && |message| % 2 == 0 && levels != []
    requires OctetSum(message, true)
          == OctetSum(zeroed, true) + Combined(Rfc1071(zeroed), PayloadCksum(offset, levels), pseudo)
    requires OctetSum(JoinAll(levels), true) % 0xFFFF != Inv(PayloadCksum(offset, levels)) % 0xFFFF
    ensures !Accepts(WordSum(header + message + JoinAll(levels)))
  {
    hide OctetSum, WordSum, Combined, PayloadCksum, JoinAll, Accepts, Covers;
    var believed := Inv(PayloadCksum(offset, levels));
    assert Inv(believed) == PayloadCksum(offset, levels);
    MessageAcceptsIff(header, zeroed, message, JoinAll(levels), believed, pseudo);
  }
}
