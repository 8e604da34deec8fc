/**
 Payload protocols with checksums of their own, the inner header of a tunnel say.  The outer
 checksum is computed over them with their checksum fields as zero, but they are sent with
 the checksums in place.
 */
module InnerCksum {
  import opened Options
  import opened Bytes
  import opened Checksum
  import opened PayloadChecksum
  import opened VariableFields
  import opened CksumField
  import opened CksumSlots
  import opened Receiver
  import Icmp
  import Udp

  /** A protocol as it enters the outer checksum, and where which checksums are to come. */
  datatype Inner = Inner(zeroed: seq<byte>, slots: seq<Slot>)

  /** What a checksum adds to the words of the payload, from the octet it starts in. */
  function Weight(cksum: u16, at: nat): u16 { if at % 2 == 0 then cksum else Swap16(cksum) }

  function SlotWeights(pos: nat, slots: seq<Slot>): nat {
    if slots == [] then 0
    else SlotWeights(pos, slots[..|slots| - 1]) + Weight(slots[|slots| - 1].cksum, pos + slots[|slots| - 1].at)
  }

  lemma TwoOctets(cksum: u16)
    ensures OctetSum(ToBe(cksum, 2), true) == cksum && OctetSum(ToBe(cksum, 2), false) == Swap16(cksum)
  {
    AddsUp(cksum);
    assert ToBe(cksum, 2) == [cksum / 0x100, cksum % 0x100] by {
      assert ToBe(cksum / 0x100, 1) == ToBe(0, 0) + [cksum / 0x100];
    }
    assert [cksum / 0x100, cksum % 0x100][1..] == [cksum % 0x100];
    assert OctetSum([cksum % 0x100], true) == 0x100 * (cksum % 0x100) + OctetSum([], false);
  }

  lemma ThreeParts(a: seq<byte>, b: seq<byte>, c: seq<byte>, high: bool)
    requires |b| == 2
    ensures OctetSum(a + b + c, high) == OctetSum(a, high) + OctetSum(b, high == (|a| % 2 == 0))
                                         + OctetSum(c, high == (|a| % 2 == 0))
  {
    hide OctetSum;
    OctetSumConcat(a + b, c, high);
    OctetSumConcat(a, b, high);
  }

  /** The octets of a checksum in their places. */
  lemma PlacedOctets(cksum: u16, pos: nat, o: nat)
    ensures OctetSum(ToBe(cksum, 2), (pos % 2 == 0) == (o % 2 == 0)) == Weight(cksum, pos + o)
  {
    hide OctetSum, ToBe;
    TwoOctets(cksum);
  }

  /** Writing a checksum over zeros anywhere. */
  lemma SplicedAnywhere(s: seq<byte>, o: nat, cksum: u16, pos: nat)
    requires o + 2 <= |s| && s[o..o + 2] == [0, 0]
    ensures OctetSum(s[..o] + ToBe(cksum, 2) + s[o + 2..], pos % 2 == 0)
         == OctetSum(s, pos % 2 == 0) + Weight(cksum, pos + o)
  {
    var (a, c) := (s[..o], s[o + 2..]);
    assert s == a + s[o..o + 2] + c;
    PlacedOctets(cksum, pos, o);
    PlacedOctets(0, pos, o);
    assert Weight(0, pos + o) == 0;
    hide OctetSum, ToBe, Weight;
    TwoZeros();
    ThreeParts(a, ToBe(cksum, 2), c, pos % 2 == 0);
    ThreeParts(a, ToBe(0, 2), c, pos % 2 == 0);
  }

  lemma {:induction false} WrittenSum(z: seq<byte>, slots: seq<Slot>, pos: nat)
    requires Fits(z, slots)
    ensures OctetSum(Written(z, slots), pos % 2 == 0) == OctetSum(z, pos % 2 == 0) + SlotWeights(pos, slots)
  {
    hide OctetSum, ToBe;
    if slots != [] {
      var n := |slots| - 1;
      WrittenSum(z, slots[..n], pos);
      StillZero(z, slots);
      hide Fits;
      SplicedAnywhere(Written(z, slots[..n]), slots[n].at, slots[n].cksum, pos);
    }
  }

  // ------- chains of them -------

  type InnerChain = seq<Inner>

  predicate AllFit(levels: seq<InnerChain>) {
    forall l, i :: 0 <= l < |levels| && 0 <= i < |levels[l]| ==> Fits(levels[l][i].zeroed, levels[l][i].slots)
  }

  predicate ChainFits(ms: InnerChain) { forall i :: 0 <= i < |ms| ==> Fits(ms[i].zeroed, ms[i].slots) }

  function ZeroedChain(ms: InnerChain): (r: Chain)
    ensures |r| == |ms| && forall i :: 0 <= i < |ms| ==> r[i] == ms[i].zeroed
  {
    if ms == [] then [] else [ms[0].zeroed] + ZeroedChain(ms[1..])
  }

  function WrittenChain(ms: InnerChain): (r: Chain)
    requires ChainFits(ms)
    ensures |r| == |ms|
  {
    if ms == [] then [] else [Written(ms[0].zeroed, ms[0].slots)] + WrittenChain(ms[1..])
  }

  /** As they enter the outer checksum. */
  function Zeroed(levels: seq<InnerChain>): (r: seq<Chain>)
    ensures |r| == |levels|
  {
    if levels == [] then [] else [ZeroedChain(levels[0])] + Zeroed(levels[1..])
  }

  /** As they are sent. */
  function Sent(levels: seq<InnerChain>): (r: seq<Chain>)
    requires AllFit(levels)
    ensures |r| == |levels|
  {
    if levels == [] then [] else
      FirstFits(levels);
      [WrittenChain(levels[0])] + Sent(levels[1..])
  }

  lemma FirstFits(levels: seq<InnerChain>)
    requires AllFit(levels) && levels != []
    ensures ChainFits(levels[0]) && AllFit(levels[1..])
  {
  }

  /** The checksums left out of a chain that starts at octet `pos` of the payload. */
  function ChainOmits(pos: nat, ms: InnerChain): nat
    decreases ms
  {
    if ms == [] then 0 else SlotWeights(pos, ms[0].slots) + ChainOmits(pos + |ms[0].zeroed|, ms[1..])
  }

  /** All checksums left out, octets swapped for those at odd places. */
  function Omitted(pos: nat, levels: seq<InnerChain>): nat
    decreases |levels|
  {
    if levels == [] then 0
    else ChainOmits(pos, levels[0]) + Omitted(pos + |Join(ZeroedChain(levels[0]))|, levels[1..])
  }

  lemma {:induction false} ChainSum(pos: nat, ms: InnerChain)
    requires ChainFits(ms)
    ensures OctetSum(Join(WrittenChain(ms)), pos % 2 == 0)
         == OctetSum(Join(ZeroedChain(ms)), pos % 2 == 0) + ChainOmits(pos, ms)
    ensures |Join(WrittenChain(ms))| == |Join(ZeroedChain(ms))|
    decreases ms
  {
    hide OctetSum, Written, Fits, SlotWeights;
    if ms != [] {
      var (z, s) := (ms[0].zeroed, Written(ms[0].zeroed, ms[0].slots));
      ChainSum(pos + |z|, ms[1..]);
      WrittenSum(z, ms[0].slots, pos);
      OctetSumConcat(z, Join(ZeroedChain(ms[1..])), pos % 2 == 0);
      OctetSumConcat(s, Join(WrittenChain(ms[1..])), pos % 2 == 0);
      assert ZeroedChain(ms)[1..] == ZeroedChain(ms[1..]) && WrittenChain(ms)[1..] == WrittenChain(ms[1..]);
    }
  }

  lemma {:induction false} PayloadSum(pos: nat, levels: seq<InnerChain>)
    requires AllFit(levels)
    ensures OctetSum(JoinAll(Sent(levels)), pos % 2 == 0)
         == OctetSum(JoinAll(Zeroed(levels)), pos % 2 == 0) + Omitted(pos, levels)
    decreases |levels|
  {
    hide OctetSum, Join, ChainOmits, WrittenChain, ZeroedChain, ChainFits;
    if levels != [] {
      FirstFits(levels);
      hide AllFit;
      var (z, s) := (Join(ZeroedChain(levels[0])), Join(WrittenChain(levels[0])));
      ChainSum(pos, levels[0]);
      PayloadSum(pos + |z|, levels[1..]);
      OctetSumConcat(z, JoinAll(Zeroed(levels[1..])), pos % 2 == 0);
      OctetSumConcat(s, JoinAll(Sent(levels[1..])), pos % 2 == 0);
      assert Zeroed(levels)[1..] == Zeroed(levels[1..]) && Sent(levels)[1..] == Sent(levels[1..]);
    }
  }

  // ------- the verdict -------

  /** The receiver's residue differs from the one believed by what was left out. */
  lemma ResidueIff(sent: nat, zeroed: nat, omitted: nat, believed: nat)
    requires sent == zeroed + omitted && zeroed % 0xFFFF == believed % 0xFFFF
    ensures sent % 0xFFFF == believed % 0xFFFF <==> omitted % 0xFFFF == 0
  {
    var k := zeroed / 0xFFFF;
    assert sent == zeroed % 0xFFFF + omitted + 0xFFFF * k;
    ModPlus(zeroed % 0xFFFF + omitted, k);
    var j := omitted / 0xFFFF;
    ModPlus(zeroed % 0xFFFF + omitted % 0xFFFF, j);
  }

  /** With lengths that let the checksums combine, an ICMP message over protocols with
      checksums of their own is accepted if and only if those add up to zero, modulo 65535. */
  lemma IcmpAcceptedIff(d: Icmp.Config, vfs: seq<VariableField>, rnds: seq<nat>, rnds': seq<nat>, i: nat,
                        pseudo: u16, header: seq<byte>, offset: nat, levels: seq<InnerChain>, shape: seq<Lens>)
    requires Icmp.Ready(d, vfs) && |rnds| == |rnds'| == |vfs|
    requires !d.isOverrideChecksum && Icmp.PseudoHeader(d, pseudo, header)
    requires levels != [] && AllFit(levels)
    requires LevelsOf(Zeroed(levels), shape) && ShapeOk(offset, offset, shape)
    ensures var message := Icmp.Sent(d, vfs, rnds, rnds', i, pseudo, offset, Zeroed(levels));
            Accepts(WordSum(header + message + JoinAll(Sent(levels)))) <==> Omitted(0, levels) % 0xFFFF == 0
  {
    Icmp.HeaderCovered(d, pseudo, header);
    hide OctetSum, WordSum, JoinAll, Accepts, PayloadCksum, ShapeOk, Omitted, Zeroed, Sent, AllFit, LevelsOf, Covers,
         Combined, Rfc1071, Icmp.Cover, Icmp.Zeroed, Icmp.Sent, Spared;
    var believed := Inv(PayloadCksum(offset, Zeroed(levels)));
    assert Inv(believed) == PayloadCksum(offset, Zeroed(levels));
    Icmp.SentSum(d, vfs, rnds, rnds', i, pseudo, offset, Zeroed(levels));
    ShapeCounts(offset, Zeroed(levels), shape);
    PayloadSum(0, levels);
    MessageAcceptsIff(header, Icmp.Zeroed(d, vfs, rnds, i),
                      Icmp.Sent(d, vfs, rnds, rnds', i, pseudo, offset, Zeroed(levels)), JoinAll(Sent(levels)),
                      believed, Icmp.Cover(d, pseudo));
    ResidueIff(OctetSum(JoinAll(Sent(levels)), true), OctetSum(JoinAll(Zeroed(levels)), true), Omitted(0, levels),
               believed);
  }

  /** And so is a datagram. */
  lemma UdpAcceptedIff(d: Udp.Ports, vfs: seq<VariableField>, rnds: seq<nat>, rnds': seq<nat>, i: nat,
                       pseudo: u16, header: seq<byte>, offset: nat, levels: seq<InnerChain>, shape: seq<Lens>)
    requires Udp.Ready(vfs) && |rnds| == |rnds'| == |vfs|
    requires Covers(Some(pseudo), header) && WordSum(header) > 0
    requires levels != [] && AllFit(levels)
    requires LevelsOf(Zeroed(levels), shape) && ShapeOk(offset, offset, shape)
    ensures var message := Udp.Sent(d, vfs, rnds, rnds', i, pseudo, offset, Zeroed(levels));
            Accepts(WordSum(header + message + JoinAll(Sent(levels)))) <==> Omitted(0, levels) % 0xFFFF == 0
  {
    hide OctetSum, WordSum, JoinAll, Accepts, PayloadCksum, ShapeOk, Omitted, Zeroed, Sent, AllFit, LevelsOf, Covers,
         Udp.Sent, Spared;
    ShapeCounts(offset, Zeroed(levels), shape);
    PayloadSum(0, levels);
    Udp.SentAcceptedIff(d, vfs, rnds, rnds', i, pseudo, header, offset, Zeroed(levels), JoinAll(Sent(levels)));
    ResidueIff(OctetSum(JoinAll(Sent(levels)), true), OctetSum(JoinAll(Zeroed(levels)), true), Omitted(0, levels),
               Inv(PayloadCksum(offset, Zeroed(levels))));
  }

  lemma {:induction false} NothingOmitted(pos: nat, ms: InnerChain)
    requires forall i :: 0 <= i < |ms| ==> ms[i].slots == []
    ensures ChainOmits(pos, ms) == 0
    decreases ms
  {
    if ms != [] { NothingOmitted(pos + |ms[0].zeroed|, ms[1..]); }
  }

  /** With one protocol in a chain that has a checksum, as the inner header of a tunnel has, this
      comes true only for a checksum of all zeros or all ones. */
  lemma OneChecksumIff(front: InnerChain, m: Inner, slot: Slot, rest: InnerChain)
    requires m.slots == [slot]
    requires forall i :: 0 <= i < |front| ==> front[i].slots == []
    requires forall i :: 0 <= i < |rest| ==> rest[i].slots == []
    ensures Omitted(0, [front + [m] + rest]) % 0xFFFF == 0 <==> slot.cksum == 0 || slot.cksum == 0xFFFF
  {
    hide Weight, ChainOmits, Join, ZeroedChain;
    var at := OneOmitted(0, front, m, slot, rest);
    var levels := [front + [m] + rest];
    assert levels[1..] == [];
    assert Omitted(0, levels) == ChainOmits(0, levels[0]) + Omitted(|Join(ZeroedChain(levels[0]))|, []);
    WeightZeroIff(slot.cksum, at);
  }

  lemma {:induction false} OneOmitted(pos: nat, front: InnerChain, m: Inner, slot: Slot, rest: InnerChain)
    returns (at: nat)
    requires m.slots == [slot]
    requires forall i :: 0 <= i < |front| ==> front[i].slots == []
    requires forall i :: 0 <= i < |rest| ==> rest[i].slots == []
    ensures ChainOmits(pos, front + [m] + rest) == Weight(slot.cksum, at)
    decreases front
  {
    hide Weight;
    var ms := front + [m] + rest;
    if front == [] {
      at := pos + slot.at;
      assert ms[0] == m && ms[1..] == rest;
      NothingOmitted(pos + |m.zeroed|, rest);
      assert m.slots[..0] == [];
      assert SlotWeights(pos, m.slots) == SlotWeights(pos, m.slots[..0]) + Weight(slot.cksum, at);
      assert ChainOmits(pos, ms) == SlotWeights(pos, m.slots) + ChainOmits(pos + |m.zeroed|, rest);
    } else {
      assert front[0].slots == [];
      assert ms[0] == front[0] && ms[1..] == front[1..] + [m] + rest;
      at := OneOmitted(pos + |front[0].zeroed|, front[1..], m, slot, rest);
    }
  }

  lemma WeightZeroIff(cksum: u16, at: nat)
    ensures Weight(cksum, at) % 0xFFFF == 0 <==> cksum == 0 || cksum == 0xFFFF
  {
  }
}
