/**
 An ICMPv6 message in its place in a frame: the checksum is computed by walking the chain
 of protocols both ways, and the receiver checks it against the bytes of the frame alone.
 */
module IcmpInFrame {
  import opened Options
  import opened Bytes
  import opened Checksum
  import opened PayloadChecksum
  import opened ProtocolChain
  import opened Receiver
  import opened VariableFields
  import opened CksumField
  import opened IpCksum
  import opened PseudoInFrame
  import Icmp

  /** Wherever an ICMPv6 message is in a frame, over a payload of lengths that let the checksums
      combine: the receiver accepts it if and only if the length and the number that went into its
      pseudo-header checksum add up to its own, modulo 65535.  They are its own when the IP header
      is in its chain, and those of a combination when that is where the header was found. */
  lemma Icmp6AcceptedIff(path: seq<Level>, d: Icmp.Config, vfs: seq<VariableField>, rnds: seq<nat>, rnds': seq<nat>,
                         i: nat, addresses: seq<byte>, shape: seq<Lens>)
    requires Nested(path) && Balanced(path) && Sized(path) && HasIp(path, addresses)
    requires d.version == Icmp.Icmp6 && !d.isOverrideChecksum && Here(path).FrameSize() == Icmp.Size(d)
    requires Icmp.Ready(d, vfs) && |rnds| == |rnds'| == |vfs|
    requires Here(path).FrameSize() + PayloadSize(path) < 0x1_0000_0000
    requires LevelsOf(Levels(path), shape)
    requires var start := Offset(path) + Here(path).FrameSize(); ShapeOk(start, start, shape)
    ensures var payload := JoinAll(Levels(path));
            var message := Icmp.Message(d, vfs, rnds', i,
              Icmp.CksumOf(d, Icmp.Zeroed(d, vfs, rnds, i), CksumAfter(path), HeaderCksum(path)));
            (Accepts(WordSum(Pseudo6(addresses, |message| + |payload|, 0x3A) + message + payload))
             <==> Claimed(path) % 0xFFFF == (|message| + |payload| + 0x3A) % 0xFFFF)
  {
    hide Rfc1071, Fold, Covers, Pseudo6, PayloadSize, HeaderCksum, Icmp.Zeroed, Icmp.Message, Icmp.CksumOf, OctetSum,
         WordSum, JoinAll, Accepts, PayloadCksum, Offset, ShapeOk, Spared, Icmp.Size, Combined, Claimed, HasIp,
         Balanced;
    var (start, z) := (Offset(path) + Here(path).FrameSize(), Icmp.Zeroed(d, vfs, rnds, i));
    var length := Here(path).FrameSize() + PayloadSize(path);
    var believed := Inv(PayloadCksum(start, Levels(path)));
    assert Inv(believed) == CksumAfter(path);
    PayloadBytes(path);
    Icmp.MessageSum(d, vfs, rnds, rnds', i, Icmp.CksumOf(d, z, CksumAfter(path), HeaderCksum(path)));
    Icmp.SentSum(d, vfs, rnds, rnds', i, HeaderCksum(path), start, Levels(path));
    ShapeCounts(start, Levels(path), shape);
    var message := Icmp.Sent(d, vfs, rnds, rnds', i, HeaderCksum(path), start, Levels(path));
    Claim6Iff(path, addresses, length, 0x3A);
    PseudoAcceptsIff(Pseudo6(addresses, length, 0x3A), z, message, JoinAll(Levels(path)), believed,
                     Some(HeaderCksum(path)));
  }

  /** With the IP header in its own chain, the message is accepted. */
  lemma Icmp6Accepted(path: seq<Level>, d: Icmp.Config, vfs: seq<VariableField>, rnds: seq<nat>, rnds': seq<nat>,
                      i: nat, addresses: seq<byte>, shape: seq<Lens>)
    requires Nested(path) && Balanced(path) && Sized(path) && |addresses| == 32
    requires NearestIp(path[0].chain, path[0].at) == Some(Rfc1071(addresses))
    requires d.version == Icmp.Icmp6 && !d.isOverrideChecksum && Here(path).FrameSize() == Icmp.Size(d)
    requires Here(path).ipProtocolId == Icmp.ProtocolId(d)
    requires Icmp.Ready(d, vfs) && |rnds| == |rnds'| == |vfs|
    requires Here(path).FrameSize() + PayloadSize(path) < 0x1_0000_0000
    requires LevelsOf(Levels(path), shape)
    requires var start := Offset(path) + Here(path).FrameSize(); ShapeOk(start, start, shape)
    ensures var payload := JoinAll(Levels(path));
            var message := Icmp.Message(d, vfs, rnds', i,
              Icmp.CksumOf(d, Icmp.Zeroed(d, vfs, rnds, i), CksumAfter(path), HeaderCksum(path)));
            Accepts(WordSum(Pseudo6(addresses, |message| + |payload|, 0x3A) + message + payload))
  {
    hide Rfc1071, Fold, Covers, Pseudo6, PayloadSize, HeaderCksum, Icmp.Zeroed, Icmp.Message, Icmp.CksumOf, OctetSum,
         WordSum, JoinAll, Accepts, PayloadCksum, Offset, ShapeOk, Spared, Icmp.Size, Balanced;
    PayloadBytes(path);
    Icmp.MessageSum(d, vfs, rnds, rnds', i,
                    Icmp.CksumOf(d, Icmp.Zeroed(d, vfs, rnds, i), CksumAfter(path), HeaderCksum(path)));
    Icmp6AcceptedIff(path, d, vfs, rnds, rnds', i, addresses, shape);
  }
}
