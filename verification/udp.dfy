/**
 The UDP header.  Its checksum covers pseudo header, header and payload as in ICMPv6; a
 computed zero is sent as all ones, because zero stands for "no checksum" (RFC 768).
 */
module Udp {
  import opened Options
  import opened Unsigned
  import opened Bytes
  import opened FrameBuilder
  import opened Packing
  import opened VariableFields
  import opened CksumField
  import opened Checksum
  import opened PayloadChecksum
  import opened Receiver

  const CKSUM := 3

  function Fields(srcPort: u16, dstPort: u16, totLen: nat, cksum: nat): (fs: seq<Field>)
    ensures |fs| == 4 && fs[CKSUM].value == ToBe(cksum, 2)
  {
    [ Field(true, false, 16, ToBe(srcPort, 2)),
      Field(true, false, 16, ToBe(dstPort, 2)),
      Field(true, false, 16, ToBe(totLen, 2)),
      Field(true, true, 16, ToBe(cksum, 2))
    ]
  }

  lemma LayoutPacks()
    ensures Laid([16, 16, 16], 48) && Laid([16, 16, 16, 16], 64)
  {
    hide Laid;
    NothingLaid();
    Lay([], 0, 16, [16]);
    Lay([16], 16, 16, [16, 16]);
    Lay([16, 16], 32, 16, [16, 16, 16]);
    Lay([16, 16, 16], 48, 16, [16, 16, 16, 16]);
  }

  lemma FieldsLaidOut(srcPort: u16, dstPort: u16, totLen: nat, cksum: nat)
    ensures var fs := Fields(srcPort, dstPort, totLen, cksum);
            && AllEncoded(fs) && LayoutOk(Sizes(fs)) && HasCksum(fs, CKSUM) && CksumAt(fs, CKSUM) == 6
            && (TotalBits(Sizes(fs)) + 7) / 8 == 8
  {
    LayoutPacks();
    hide LayoutOk, TotalBits;
    assert Sizes(Fields(srcPort, dstPort, totLen, cksum)) == [16, 16, 16, 16];
    assert Sizes(Fields(srcPort, dstPort, totLen, cksum))[..3] == [16, 16, 16];
  }

  predicate Ready(vfs: seq<VariableField>) { Countable(vfs) && NoRandom(vfs) && Spared(vfs, 8, 6) }

  /** The ports and the length. */
  datatype Ports = Ports(src: u16, dst: u16, totLen: nat)

  /** What a user has set; an override replaces a computed value. */
  datatype Config = Config(
    isOverrideSrcPort: bool, srcPort: uint32, isOverrideDstPort: bool, dstPort: uint32,
    isOverrideTotlen: bool, totlen: uint32, isOverrideCksum: bool, cksum: uint32)

  function PortsOf(c: Config, payloadSize: nat, payloadId: nat): Ports {
    Ports((if c.isOverrideSrcPort then c.srcPort else payloadId) % 0x1_0000,
          (if c.isOverrideDstPort then c.dstPort else payloadId) % 0x1_0000,
          if c.isOverrideTotlen then c.totlen else payloadSize + 8)
  }

  function CksumOf(c: Config, computed: u16): u16 {
    if c.isOverrideCksum then c.cksum % 0x1_0000 else AvoidZero(computed)
  }

  function Zeroed(d: Ports, vfs: seq<VariableField>, rnds: seq<nat>, i: nat): seq<byte>
    requires Countable(vfs) && |rnds| == |vfs|
  {
    FieldsLaidOut(d.src, d.dst, d.totLen, 0);
    PreparedEncoded(Fields(d.src, d.dst, d.totLen, 0), true);
    FrameValue(Fields(d.src, d.dst, d.totLen, 0), vfs, rnds, i, true)
  }

  function AvoidZero(cksum: u16): u16 { if cksum == 0 then 0xFFFF else cksum }

  function Message(d: Ports, vfs: seq<VariableField>, rnds: seq<nat>, i: nat, cksum: u16): seq<byte>
    requires Countable(vfs) && |rnds| == |vfs|
  {
    FieldsLaidOut(d.src, d.dst, d.totLen, cksum);
    PreparedEncoded(Fields(d.src, d.dst, d.totLen, cksum), false);
    FrameValue(Fields(d.src, d.dst, d.totLen, cksum), vfs, rnds, i, false)
  }

  lemma MessageSum(d: Ports, vfs: seq<VariableField>, rnds: seq<nat>, rnds': seq<nat>, i: nat, cksum: u16)
    requires Ready(vfs) && |rnds| == |rnds'| == |vfs|
    ensures |Message(d, vfs, rnds', i, cksum)| == 8
    ensures OctetSum(Message(d, vfs, rnds', i, cksum), true) == OctetSum(Zeroed(d, vfs, rnds, i), true) + cksum
  {
    hide FrameValue, OctetSum, TotalBits, LayoutOk, Spared;
    FieldsLaidOut(d.src, d.dst, d.totLen, cksum);
    FieldsLaidOut(d.src, d.dst, d.totLen, 0);
    EmittedSum(Fields(d.src, d.dst, d.totLen, cksum), Fields(d.src, d.dst, d.totLen, 0), CKSUM, cksum,
               vfs, rnds, rnds', i);
  }

  /** The datagram with zeros for its checksum is the one the checksum was computed over, and the
      checksum in it is the given one. */
  lemma CksumWritten(d: Ports, vfs: seq<VariableField>, rnds: seq<nat>, rnds': seq<nat>, i: nat, cksum: u16)
    requires Ready(vfs) && |rnds| == |rnds'| == |vfs|
    ensures var m := Message(d, vfs, rnds', i, cksum);
            && |m| == 8 && m[6..] == [cksum / 0x100, cksum % 0x100]
            && m[..6] + [0, 0] == Zeroed(d, vfs, rnds, i)
  {
    hide FrameValue, TotalBits, LayoutOk, Spared, ToBe, FromBe;
    FieldsLaidOut(d.src, d.dst, d.totLen, cksum);
    FieldsLaidOut(d.src, d.dst, d.totLen, 0);
    CksumInPlace(Fields(d.src, d.dst, d.totLen, cksum), Fields(d.src, d.dst, d.totLen, 0), CKSUM, vfs, rnds, rnds', i);
    ReadBack(cksum);
  }

  /** All ones in place of zero makes no difference to a sum that is not zero. */
  lemma AllOnesForZero(own: nat, actual: nat)
    requires own > 0
    ensures Accepts(own + 0xFFFF + actual) <==> Accepts(own + actual)
  {
    FoldZero(own + 0xFFFF + actual);
    FoldZero(own + actual);
    ModPlus(own + actual, 1);
  }

  /** The checksum sent over `levels`, the protocols that follow. */
  function Sent(d: Ports, vfs: seq<VariableField>, rnds: seq<nat>, rnds': seq<nat>, i: nat,
                pseudo: u16, offset: nat, levels: seq<Chain>): seq<byte>
    requires Countable(vfs) && |rnds| == |rnds'| == |vfs| && |levels| > 0
  {
    Message(d, vfs, rnds', i,
            AvoidZero(Combined(Rfc1071(Zeroed(d, vfs, rnds, i)), PayloadCksum(offset, levels), Some(pseudo))))
  }

  /** The checksum in the datagram: never zero, and all ones exactly when pseudo header, datagram
      and what is believed of the payload add up to a multiple of 65535.  Where the payload
      checksum is that of the payload, it is the checksum of RFC 768 over all three. */
  lemma ChecksumSent(d: Ports, vfs: seq<VariableField>, rnds: seq<nat>, rnds': seq<nat>, i: nat,
                     pseudo: u16, header: seq<byte>, offset: nat, levels: seq<Chain>)
    requires Ready(vfs) && |rnds| == |rnds'| == |vfs| && |levels| > 0 && Covers(Some(pseudo), header)
    ensures var m := Sent(d, vfs, rnds, rnds', i, pseudo, offset, levels);
            && |m| == 8 && m[6..] != [0, 0]
            && var blank := m[..6] + [0, 0];
            && (m[6..] == [0xFF, 0xFF]
                <==> (WordSum(header) + WordSum(blank) + Inv(PayloadCksum(offset, levels))) % 0xFFFF == 0)
            && (PayloadCksum(offset, levels) == Rfc1071(JoinAll(levels)) ==>
                  var c := Rfc1071(header + blank + JoinAll(levels));
                  m[6] as nat * 0x100 + m[7] as nat == if c == 0 then 0xFFFF else c)
  {
    hide Combined, Rfc1071, PayloadCksum, JoinAll, WordSum, OctetSum, Fold, Spared, Message, Zeroed;
    var (z, believed) := (Zeroed(d, vfs, rnds, i), Inv(PayloadCksum(offset, levels)));
    assert Inv(believed) == PayloadCksum(offset, levels);
    CksumWritten(d, vfs, rnds, rnds', i,
                 AvoidZero(Combined(Rfc1071(z), PayloadCksum(offset, levels), Some(pseudo))));
    CombinedIsSum(z, believed, Some(pseudo), header);
    WordSumIsOctetSum(header);
    WordSumIsOctetSum(z);
    InvFold(OctetSum(header, true) + OctetSum(z, true) + believed);
    FoldIsZero(OctetSum(header, true) + OctetSum(z, true) + believed);
    CombinedIsRfc1071(header, z, JoinAll(levels), Some(pseudo));
  }

  lemma FoldIsZero(n: nat)
    ensures Inv(Fold(n)) == 0xFFFF <==> n == 0
  {
  }

  /** With `payload` behind it, a datagram is accepted exactly when the payload checksum is right. */
  lemma SentAcceptedIff(d: Ports, vfs: seq<VariableField>, rnds: seq<nat>, rnds': seq<nat>, i: nat,
                        pseudo: u16, header: seq<byte>, offset: nat, levels: seq<Chain>, payload: seq<byte>)
    requires Ready(vfs) && |rnds| == |rnds'| == |vfs| && |levels| > 0
    requires Covers(Some(pseudo), header) && WordSum(header) > 0
    ensures Accepts(WordSum(header + Sent(d, vfs, rnds, rnds', i, pseudo, offset, levels) + payload))
        <==> OctetSum(payload, true) % 0xFFFF == Inv(PayloadCksum(offset, levels)) % 0xFFFF
  {
    hide OctetSum, WordSum, Combined, PayloadCksum, Accepts, Rfc1071, Zeroed, Message, Fold;
    var z, believed := Zeroed(d, vfs, rnds, i), Inv(PayloadCksum(offset, levels));
    assert Inv(believed) == PayloadCksum(offset, levels);
    var cks := Combined(Rfc1071(z), PayloadCksum(offset, levels), Some(pseudo));
    var own, actual := OctetSum(header, true) + OctetSum(z, true), OctetSum(payload, true);
    var sent := Sent(d, vfs, rnds, rnds', i, pseudo, offset, levels);
    MessageSum(d, vfs, rnds, rnds', i, AvoidZero(cks));
    CombinedIsSum(z, believed, Some(pseudo), header);
    InsertedAcceptsIff(own, believed, actual);
    WordSumIsOctetSum(header);
    AllOnesForZero(own, actual);
    WordSumIsOctetSum(header + sent + payload);
    SumOfThree(header, sent, payload);
  }

  lemma SentSize(d: Ports, vfs: seq<VariableField>, rnds: seq<nat>, rnds': seq<nat>, i: nat,
                 pseudo: u16, offset: nat, levels: seq<Chain>)
    requires Ready(vfs) && |rnds| == |rnds'| == |vfs| && |levels| > 0
    ensures |Sent(d, vfs, rnds, rnds', i, pseudo, offset, levels)| == 8
  {
    hide OctetSum, Combined, PayloadCksum, Rfc1071, Zeroed, Message, Spared;
    MessageSum(d, vfs, rnds, rnds', i,
               AvoidZero(Combined(Rfc1071(Zeroed(d, vfs, rnds, i)), PayloadCksum(offset, levels), Some(pseudo))));
  }

  /** Over a payload whose checksum is right, a datagram is accepted exactly when its pseudo-header
      checksum stands for the pseudo header that the receiver puts in front. */
  lemma SentPseudoIff(d: Ports, vfs: seq<VariableField>, rnds: seq<nat>, rnds': seq<nat>, i: nat,
                      pseudo: u16, header: seq<byte>, offset: nat, levels: seq<Chain>)
    requires Ready(vfs) && |rnds| == |rnds'| == |vfs| && |levels| > 0
    requires |header| % 2 == 0 && WordSum(header) > 0
    requires OctetSum(JoinAll(levels), true) % 0xFFFF == Inv(PayloadCksum(offset, levels)) % 0xFFFF
    ensures Accepts(WordSum(header + Sent(d, vfs, rnds, rnds', i, pseudo, offset, levels) + JoinAll(levels)))
        <==> WordSum(header) % 0xFFFF == Inv(pseudo) % 0xFFFF
  {
    hide OctetSum, WordSum, Combined, PayloadCksum, Accepts, Rfc1071, Zeroed, Message, Fold, Right, JoinAll, Spared;
    var (z, believed) := (Zeroed(d, vfs, rnds, i), Inv(PayloadCksum(offset, levels)));
    assert Inv(believed) == PayloadCksum(offset, levels);
    var (h, a) := (OctetSum(header, true), OctetSum(JoinAll(levels), true));
    var cks := Combined(Rfc1071(z), PayloadCksum(offset, levels), Some(pseudo));
    MessageSum(d, vfs, rnds, rnds', i, AvoidZero(cks));
    CombinedIs(z, believed, Some(pseudo));
    ReceivedSum(header, Sent(d, vfs, rnds, rnds', i, pseudo, offset, levels), JoinAll(levels));
    WordSumIsOctetSum(header);
    InsertedAcceptsIff(OctetSum(z, true), believed + Inv(pseudo), h + a);
    AllOnesForZero(h + OctetSum(z, true), a);
    PseudoRightIff(h, OctetSum(z, true), Inv(pseudo), believed, a);
  }

  ghost predicate AllAccepted(d: Ports, vfs: seq<VariableField>, rnds: seq<nat>, rnds': seq<nat>, i: nat,
                              pseudo: u16, header: seq<byte>, offset: nat, shape: seq<Lens>)
    requires Countable(vfs) && |rnds| == |rnds'| == |vfs| && |shape| > 0
  {
    forall levels: seq<Chain> :: LevelsOf(levels, shape) ==>
      Accepts(WordSum(header + Sent(d, vfs, rnds, rnds', i, pseudo, offset, levels) + JoinAll(levels)))
  }

  /** Whatever the bytes of the payload, the receiver accepts the datagram, if and only if the
      lengths of the protocols that make up the payload let their checksums combine. */
  lemma AcceptedIff(d: Ports, vfs: seq<VariableField>, rnds: seq<nat>, rnds': seq<nat>, i: nat,
                    pseudo: u16, header: seq<byte>, offset: nat, shape: seq<Lens>)
    requires Ready(vfs) && |rnds| == |rnds'| == |vfs| && |shape| > 0
    requires Covers(Some(pseudo), header) && WordSum(header) > 0
    ensures AllAccepted(d, vfs, rnds, rnds', i, pseudo, header, offset, shape) <==> ShapeOk(offset, offset, shape)
  {
    hide OctetSum, PayloadCksum, Covers, Sent, WordSum, JoinAll, Accepts, ShapeOk, Spared;
    if ShapeOk(offset, offset, shape) {
      forall levels: seq<Chain> | LevelsOf(levels, shape)
        ensures Accepts(WordSum(header + Sent(d, vfs, rnds, rnds', i, pseudo, offset, levels) + JoinAll(levels)))
      {
        ShapeCounts(offset, levels, shape);
        SentAcceptedIff(d, vfs, rnds, rnds', i, pseudo, header, offset, levels, JoinAll(levels));
      }
    } else {
      var levels := ShapeMiscounts(shape, offset);
      SentAcceptedIff(d, vfs, rnds, rnds', i, pseudo, header, offset, levels, JoinAll(levels));
    }
  }
}
