/**
 A UDP datagram in its place in a frame, behind an IPv4 or an IPv6 header.
 */
module UdpInFrame {
  import opened Bytes
  import opened Checksum
  import opened PayloadChecksum
  import opened ProtocolChain
  import opened Receiver
  import opened VariableFields
  import opened CksumField
  import opened IpCksum
  import opened PseudoInFrame
  import Udp

  /** The header as it is sent, with the checksum found by walking the chain. */
  ghost function Message(path: seq<Level>, d: Udp.Ports, vfs: seq<VariableField>, rnds: seq<nat>, rnds': seq<nat>,
                         i: nat): seq<byte>
    requires InRange(path) && Countable(vfs) && |rnds| == |rnds'| == |vfs|
  {
    Udp.Sent(d, vfs, rnds, rnds', i, HeaderCksum(path), Offset(path) + Here(path).FrameSize(), Levels(path))
  }

  /** A datagram in a frame whose payload lengths let the checksums combine. */
  ghost predicate Placed(path: seq<Level>, vfs: seq<VariableField>, shape: seq<Lens>)
    requires InRange(path)
  {
    && Nested(path) && Balanced(path) && Sized(path) && Here(path).FrameSize() == 8 && Udp.Ready(vfs)
    && LevelsOf(Levels(path), shape)
    && var start := Offset(path) + Here(path).FrameSize(); ShapeOk(start, start, shape)
  }

  lemma BehindHeader(path: seq<Level>, d: Udp.Ports, vfs: seq<VariableField>, rnds: seq<nat>, rnds': seq<nat>, i: nat,
                     shape: seq<Lens>, header: seq<byte>)
    requires InRange(path) && Placed(path, vfs, shape) && |rnds| == |rnds'| == |vfs|
    requires |header| % 2 == 0 && WordSum(header) > 0
    ensures |JoinAll(Levels(path))| == PayloadSize(path)
    ensures |Message(path, d, vfs, rnds, rnds', i)| == 8
    ensures Accepts(WordSum(header + Message(path, d, vfs, rnds, rnds', i) + JoinAll(Levels(path))))
        <==> WordSum(header) % 0xFFFF == Inv(HeaderCksum(path)) % 0xFFFF
  {
    hide OctetSum, WordSum, JoinAll, Accepts, PayloadCksum, Offset, ShapeOk, Spared, HeaderCksum, Balanced, PayloadSize,
         Udp.Zeroed, Udp.Message;
    var start := Offset(path) + Here(path).FrameSize();
    PayloadBytes(path);
    ShapeCounts(start, Levels(path), shape);
    Udp.SentPseudoIff(d, vfs, rnds, rnds', i, HeaderCksum(path), header, start, Levels(path));
    Udp.SentSize(d, vfs, rnds, rnds', i, HeaderCksum(path), start, Levels(path));
  }

  /** Over IPv6: the receiver accepts the datagram if and only if the length and the number that
      went into its pseudo-header checksum add up to its own, modulo 65535. */
  lemma Udp6AcceptedIff(path: seq<Level>, d: Udp.Ports, vfs: seq<VariableField>, rnds: seq<nat>, rnds': seq<nat>,
                        i: nat, addresses: seq<byte>, shape: seq<Lens>)
    requires InRange(path) && Placed(path, vfs, shape) && |rnds| == |rnds'| == |vfs| && HasIp(path, addresses)
    requires 8 + PayloadSize(path) < 0x1_0000_0000
    ensures var (message, payload) := (Message(path, d, vfs, rnds, rnds', i), JoinAll(Levels(path)));
            (Accepts(WordSum(Pseudo6(addresses, |message| + |payload|, 17) + message + payload))
             <==> Claimed(path) % 0xFFFF == (|message| + |payload| + 17) % 0xFFFF)
  {
    hide WordSum, JoinAll, Accepts, HeaderCksum, PayloadSize, Claimed, HasIp, Pseudo6, Placed, Message;
    Claim6Iff(path, addresses, 8 + PayloadSize(path), 17);
    BehindHeader(path, d, vfs, rnds, rnds', i, shape, Pseudo6(addresses, 8 + PayloadSize(path), 17));
  }

  /** And likewise over IPv4. */
  lemma Udp4AcceptedIff(path: seq<Level>, d: Udp.Ports, vfs: seq<VariableField>, rnds: seq<nat>, rnds': seq<nat>,
                        i: nat, addresses: seq<byte>, shape: seq<Lens>)
    requires InRange(path) && Placed(path, vfs, shape) && |rnds| == |rnds'| == |vfs| && HasIp(path, addresses)
    requires 8 + PayloadSize(path) < 0x1_0000
    ensures var (message, payload) := (Message(path, d, vfs, rnds, rnds', i), JoinAll(Levels(path)));
            (Accepts(WordSum(Pseudo4(addresses, |message| + |payload|, 17) + message + payload))
             <==> Claimed(path) % 0xFFFF == (|message| + |payload| + 17) % 0xFFFF)
  {
    hide WordSum, JoinAll, Accepts, HeaderCksum, PayloadSize, Claimed, HasIp, Pseudo4, Placed, Message;
    Claim4Iff(path, addresses, 8 + PayloadSize(path), 17);
    BehindHeader(path, d, vfs, rnds, rnds', i, shape, Pseudo4(addresses, 8 + PayloadSize(path), 17));
  }
}
