/**
 The checksums of the network layer: the IPv4 header checksum, and the pseudo headers of
 IPv4 and IPv6 that ICMPv6, TCP and UDP cover.
 */
module IpCksum {
  import opened Options
  import opened Unsigned
  import opened Bytes
  import opened FrameBuilder
  import opened Packing
  import opened VariableFields
  import opened CksumField
  import opened Checksum
  import opened Receiver
  import Ip4

  // ------- the IPv4 header -------

  /** The variable fields spare the checksum; nothing is random. */
  predicate Ready(d: Ip4.Config, vfs: seq<VariableField>) {
    && Ip4.Stepping(d) && d.src.mode != Ip4.RandomHost && d.dst.mode != Ip4.RandomHost
    && Countable(vfs) && NoRandom(vfs) && Spared(vfs, 20 + |d.options|, 10)
  }

  function Zeroed(d: Ip4.Config, vfs: seq<VariableField>, rnds: seq<nat>, i: nat, rnd: (uint32, uint32),
                  payloadSize: nat, payloadId: nat): seq<byte>
    requires Ip4.Stepping(d) && Countable(vfs) && |rnds| == |vfs|
  {
    Ip4.FieldsLaidOut(d, i, rnd, payloadSize, payloadId, 0);
    PreparedEncoded(Ip4.Fields(d, i, rnd, payloadSize, payloadId, 0), true);
    FrameValue(Ip4.Fields(d, i, rnd, payloadSize, payloadId, 0), vfs, rnds, i, true)
  }

  function CksumOf(d: Ip4.Config, own: seq<byte>): u16 {
    if d.isOverrideCksum then d.cksum % 0x1_0000 else Rfc1071(own)
  }

  function Header(d: Ip4.Config, vfs: seq<VariableField>, rnds: seq<nat>, i: nat, rnd: (uint32, uint32),
                  payloadSize: nat, payloadId: nat, cksum: u16): seq<byte>
    requires Ip4.Stepping(d) && Countable(vfs) && |rnds| == |vfs|
  {
    Ip4.FieldsLaidOut(d, i, rnd, payloadSize, payloadId, cksum);
    PreparedEncoded(Ip4.Fields(d, i, rnd, payloadSize, payloadId, cksum), false);
    FrameValue(Ip4.Fields(d, i, rnd, payloadSize, payloadId, cksum), vfs, rnds, i, false)
  }

  /** protocolFrameValue of an IPv4 protocol; random numbers are drawn anew for the frame. */
  method BuildHeader(d: Ip4.Config, vfs: seq<VariableField>, rnds: seq<nat>, rnds': seq<nat>, i: nat,
                     rnd: (uint32, uint32), rnd': (uint32, uint32), payloadSize: nat, payloadId: nat)
      returns (frame: seq<byte>)
    requires Ip4.Stepping(d) && Countable(vfs) && |rnds| == |rnds'| == |vfs|
    ensures frame == Header(d, vfs, rnds', i, rnd', payloadSize, payloadId,
                            CksumOf(d, Zeroed(d, vfs, rnds, i, rnd, payloadSize, payloadId)))
  {
    hide FrameValue, Rfc1071, Ip4.Fields;
    var cksum := d.cksum % 0x1_0000;
    if !d.isOverrideCksum {
      Ip4.FieldsLaidOut(d, i, rnd, payloadSize, payloadId, 0);
      PreparedEncoded(Ip4.Fields(d, i, rnd, payloadSize, payloadId, 0), true);
      var fv := ProtocolFrameValue(Ip4.Fields(d, i, rnd, payloadSize, payloadId, 0), vfs, rnds, i, true);
      cksum := CksumIp(fv);
    }
    Ip4.FieldsLaidOut(d, i, rnd', payloadSize, payloadId, cksum);
    PreparedEncoded(Ip4.Fields(d, i, rnd', payloadSize, payloadId, cksum), false);
    frame := ProtocolFrameValue(Ip4.Fields(d, i, rnd', payloadSize, payloadId, cksum), vfs, rnds', i, false);
  }

  lemma ZeroedAlike(d: Ip4.Config, i: nat, rnd: (uint32, uint32), rnd': (uint32, uint32),
                    payloadSize: nat, payloadId: nat, cksum: nat)
    requires Ip4.Stepping(d) && d.src.mode != Ip4.RandomHost && d.dst.mode != Ip4.RandomHost
    ensures PreparedAll(Ip4.Fields(d, i, rnd, payloadSize, payloadId, 0), true)
         == PreparedAll(Ip4.Fields(d, i, rnd', payloadSize, payloadId, cksum), true)
  {
    hide Ip4.AndWord, Ip4.OrWord, Ip4.NotWord, ToBe;
    assert Ip4.StepAddress(d.src, i, rnd.0) == Ip4.StepAddress(d.src, i, rnd'.0);
    assert Ip4.StepAddress(d.dst, i, rnd.1) == Ip4.StepAddress(d.dst, i, rnd'.1);
  }

  lemma HeaderSum(d: Ip4.Config, vfs: seq<VariableField>, rnds: seq<nat>, rnds': seq<nat>, i: nat,
                  rnd: (uint32, uint32), rnd': (uint32, uint32), payloadSize: nat, payloadId: nat, cksum: u16)
    requires Ready(d, vfs) && |rnds| == |rnds'| == |vfs|
    ensures var h := Header(d, vfs, rnds', i, rnd', payloadSize, payloadId, cksum);
            && |h| == 20 + |d.options|
            && OctetSum(h, true) == OctetSum(Zeroed(d, vfs, rnds, i, rnd, payloadSize, payloadId), true) + cksum
  {
    hide FrameValue, OctetSum, TotalBits, LayoutOk, Spared, Ip4.StepAddress;
    Ip4.FieldsLaidOut(d, i, rnd', payloadSize, payloadId, cksum);
    Ip4.FieldsLaidOut(d, i, rnd, payloadSize, payloadId, 0);
    ZeroedAlike(d, i, rnd, rnd', payloadSize, payloadId, cksum);
    EmittedSum(Ip4.Fields(d, i, rnd', payloadSize, payloadId, cksum),
               Ip4.Fields(d, i, rnd, payloadSize, payloadId, 0), Ip4.CKSUM, cksum, vfs, rnds, rnds', i);
  }

  /** A router accepts every IPv4 header built, and one whose checksum the user overrides
      exactly when the user gives the right one. */
  lemma HeaderAcceptedIff(d: Ip4.Config, vfs: seq<VariableField>, rnds: seq<nat>, rnds': seq<nat>, i: nat,
                          rnd: (uint32, uint32), rnd': (uint32, uint32), payloadSize: nat, payloadId: nat)
    requires Ready(d, vfs) && |rnds| == |rnds'| == |vfs|
    ensures var z := Zeroed(d, vfs, rnds, i, rnd, payloadSize, payloadId);
            var h := Header(d, vfs, rnds', i, rnd', payloadSize, payloadId, CksumOf(d, z));
            Accepts(WordSum(h)) <==>
              (d.isOverrideCksum ==> (d.cksum % 0x1_0000) % 0xFFFF == Rfc1071(z) % 0xFFFF
                                     && OctetSum(z, true) + d.cksum % 0x1_0000 > 0)
  {
    hide FrameValue, OctetSum, Spared, Header, Zeroed, WordSum, Fold;
    var z := Zeroed(d, vfs, rnds, i, rnd, payloadSize, payloadId);
    var c := CksumOf(d, z);
    var h := Header(d, vfs, rnds', i, rnd', payloadSize, payloadId, c);
    HeaderSum(d, vfs, rnds, rnds', i, rnd, rnd', payloadSize, payloadId, c);
    WordSumIsOctetSum(h);
    WordSumIsOctetSum(z);
    InvFold(OctetSum(z, true));
    FoldZero(OctetSum(z, true) + c);
    SameResidue(OctetSum(z, true), Rfc1071(z), c);
  }

  /** The checksum sent is the one of RFC 791 over the header with zeros in its place, or the
      user's. */
  lemma ChecksumSent(d: Ip4.Config, vfs: seq<VariableField>, rnds: seq<nat>, rnds': seq<nat>, i: nat,
                     rnd: (uint32, uint32), rnd': (uint32, uint32), payloadSize: nat, payloadId: nat)
    requires Ready(d, vfs) && |rnds| == |rnds'| == |vfs|
    ensures var z := Zeroed(d, vfs, rnds, i, rnd, payloadSize, payloadId);
            var h := Header(d, vfs, rnds', i, rnd', payloadSize, payloadId, CksumOf(d, z));
            && |h| == 20 + |d.options|
            && FromBe(h[10..12])
               == if d.isOverrideCksum then d.cksum % 0x1_0000 else Rfc1071(h[..10] + [0, 0] + h[12..])
  {
    hide FrameValue, TotalBits, LayoutOk, Spared, Ip4.StepAddress, Rfc1071, ToBe, FromBe;
    var cksum := CksumOf(d, Zeroed(d, vfs, rnds, i, rnd, payloadSize, payloadId));
    Ip4.FieldsLaidOut(d, i, rnd', payloadSize, payloadId, cksum);
    Ip4.FieldsLaidOut(d, i, rnd, payloadSize, payloadId, 0);
    ZeroedAlike(d, i, rnd, rnd', payloadSize, payloadId, cksum);
    CksumInPlace(Ip4.Fields(d, i, rnd', payloadSize, payloadId, cksum),
                 Ip4.Fields(d, i, rnd, payloadSize, payloadId, 0), Ip4.CKSUM, vfs, rnds, rnds', i);
    ReadBack(cksum);
  }

  // ------- the addresses in the pseudo header -------

  /** CksumIpPseudo of IPv4: four 16-bit loads over the addresses. */
  method Ip4PseudoCksum(fv: seq<byte>) returns (cksum: u16)
    requires |fv| >= 20
    ensures cksum == Rfc1071(fv[12..20])
  {
    hide Fold, Rfc1071;
    var sum: nat := 0;
    sum := sum + LoadWord(fv, 12);
    sum := sum + LoadWord(fv, 14);
    sum := sum + LoadWord(fv, 16);
    sum := sum + LoadWord(fv, 18);
    FourWords(fv[12..20]);
    var folded := FoldCarries(sum);
    LittleEndianSum(fv[12..20]);
    cksum := Swap16(Inv(folded));
  }

  /** A 16-bit load on a little-endian host. */
  function LoadWord(fv: seq<byte>, i: nat): u16
    requires i + 2 <= |fv|
  {
    fv[i] + 0x100 * (fv[i + 1] as nat)
  }

  lemma FourWords(s: seq<byte>)
    requires |s| == 8
    ensures OctetSum(s, false) == LoadWord(s, 0) + LoadWord(s, 2) + LoadWord(s, 4) + LoadWord(s, 6)
  {
    hide OctetSum;
    assert s[0..] == s;
    OctetSumPair(s, 0);
    OctetSumPair(s, 2);
    OctetSumPair(s, 4);
    OctetSumPair(s, 6);
    OctetSumLast(s, 8);
  }

  /** CksumIpPseudo of IPv6: a loop over the 16-bit words from the addresses to the end. */
  method Ip6PseudoCksum(fv: seq<byte>) returns (cksum: u16)
    requires 8 <= |fv| <= 0x1_0000 && |fv| % 2 == 0
    ensures cksum == Rfc1071(fv[8..])
  {
    hide Fold, Rfc1071, OctetSum;
    var sum: nat, i: nat := 0, 8;
    while i < |fv|
      invariant 8 <= i <= |fv| && i % 2 == 0
      invariant sum <= 0xFFFF * i
      invariant sum + OctetSum(fv[i..], false) == OctetSum(fv[8..], false)
    {
      OctetSumPair(fv, i);
      sum := sum + LoadWord(fv, i);
      i := i + 2;
    }
    OctetSumLast(fv, i);
    var folded := FoldCarries(sum);
    LittleEndianSum(fv[8..]);
    cksum := Swap16(Inv(folded));
  }

  // ------- the whole pseudo header -------

  /** Section 8.1 of RFC 8200. */
  function Pseudo6(addresses: seq<byte>, length: nat, next: byte): seq<byte> {
    addresses + ToBe(length, 4) + [0, 0] + [0, next]
  }

  /** RFC 768 and section 3.1 of RFC 793. */
  function Pseudo4(addresses: seq<byte>, length: nat, protocol: byte): seq<byte> {
    addresses + [0, protocol] + ToBe(length, 2)
  }

  /** What protocolFrameHeaderCksum adds up: the length as one number. */
  function PseudoCksum(addresses: seq<byte>, length: nat, id: nat): u16 {
    Inv(Fold(Inv(Rfc1071(addresses)) + length + id))
  }

  lemma LengthWords(length: nat)
    requires length < 0x1_0000_0000
    ensures Fold(OctetSum(ToBe(length, 4), true)) == Fold(length)
    ensures length < 0x1_0000 ==> OctetSum(ToBe(length, 2), true) == length
  {
    hide ToBe, OctetSum, Fold;
    var hi, lo := length / 0x1_0000, length % 0x1_0000;
    assert ToBe(length, 4) == ToBe(hi, 2) + ToBe(lo, 2) by { SplitBe(length); }
    AddsUp(hi);
    AddsUp(lo);
    OctetSumConcat(ToBe(hi, 2), ToBe(lo, 2), true);
    FoldCarry(length);
  }

  lemma SplitBe(x: nat)
    ensures ToBe(x, 4) == ToBe(x / 0x1_0000, 2) + ToBe(x % 0x1_0000, 2)
  {
    var y := x % 0x1_0000;
    assert ToBe(y, 2) == [y / 0x100 % 0x100, y % 0x100] by { assert ToBe(y / 0x100, 1) == [] + [y / 0x100 % 0x100]; }
    assert y / 0x100 % 0x100 == x / 0x100 % 0x100 && y % 0x100 == x % 0x100;
    assert x / 0x100 / 0x100 == x / 0x1_0000;
    assert ToBe(x, 4) == ToBe(x / 0x100, 3) + [x % 0x100];
    assert ToBe(x / 0x100, 3) == ToBe(x / 0x100 / 0x100, 2) + [x / 0x100 % 0x100];
  }

  lemma TwoOctets(a: byte, b: byte)
    ensures OctetSum([a, b], true) == 0x100 * (a as nat) + b
  {
    assert [a, b][1..] == [b] && OctetSum([b], false) == b + OctetSum([], true);
  }

  lemma PseudoFolds(addresses: seq<byte>, length: nat, id: nat, words: nat)
    requires Fold(words) == Fold(length + id)
    ensures Fold(Inv(PseudoCksum(addresses, length, id))) == Fold(OctetSum(addresses, true) + words)
  {
    hide OctetSum, WordSum, Fold;
    var a := OctetSum(addresses, true);
    WordSumIsOctetSum(addresses);
    FoldOfWord(Fold(a));
    FoldOfWord(Fold(Fold(a) + (length + id)));
    FoldSums(Fold(a), a, length + id, words);
  }

  lemma Pseudo6Covers(addresses: seq<byte>, length: nat, next: byte)
    requires |addresses| % 2 == 0 && length < 0x1_0000_0000
    ensures Covers(Some(PseudoCksum(addresses, length, next)), Pseudo6(addresses, length, next))
  {
    hide OctetSum, WordSum, Fold, ToBe, PseudoCksum;
    var header := Pseudo6(addresses, length, next);
    WordSumIsOctetSum(header);
    OctetSumConcat(addresses + ToBe(length, 4) + [0, 0], [0, next], true);
    SumOfThree(addresses, ToBe(length, 4), [0, 0]);
    TwoOctets(0, 0);
    TwoOctets(0, next);
    LengthWords(length);
    var words := OctetSum(ToBe(length, 4), true);
    FoldSums(words, length, next, next);
    PseudoFolds(addresses, length, next, words + next);
  }

  lemma Pseudo4Covers(addresses: seq<byte>, length: nat, protocol: byte)
    requires |addresses| % 2 == 0 && length < 0x1_0000
    ensures Covers(Some(PseudoCksum(addresses, length, protocol)), Pseudo4(addresses, length, protocol))
  {
    hide OctetSum, WordSum, Fold, ToBe, PseudoCksum;
    var header := Pseudo4(addresses, length, protocol);
    WordSumIsOctetSum(header);
    SumOfThree(addresses, [0, protocol], ToBe(length, 2));
    TwoOctets(0, protocol);
    LengthWords(length);
    PseudoFolds(addresses, length, protocol, length + protocol);
  }
}
