/**
 The ICMP header, for version 4 and 6: its fields, its checksum over header, payload and,
 for version 6, pseudo header, and the verdict of the receiver.
 */
module Icmp {
  import opened Options
  import opened Unsigned
  import opened Bytes
  import opened FrameBuilder
  import opened Packing
  import opened VariableFields
  import opened CksumField
  import opened Checksum
  import opened PayloadChecksum
  import opened Receiver

  datatype Version = Icmp4 | Icmp6

  datatype Config = Config(
    version: Version, kind: uint32, code: uint32, isOverrideChecksum: bool, checksum: uint32,
    identifier: uint32, sequence: uint32)

  /** The types that carry an identifier and a sequence number: echo and information
      messages. */
  predicate IsIdSeqType(version: Version, kind: nat) {
    match version
    case Icmp4 => kind in {0, 8, 15, 16}
    case Icmp6 => kind in {128, 129}
  }

  predicate HasIdSeq(d: Config) { IsIdSeqType(d.version, d.kind % 0x100) }

  function ProtocolId(d: Config): nat { if d.version == Icmp4 then 0x1 else 0x3A }

  const CKSUM := 2

  function Fields(d: Config, cksum: nat): (fs: seq<Field>)
    ensures |fs| == 5 && fs[CKSUM].value == ToBe(cksum, 2)
  {
    [ Field(true, false, 8, ToBe(d.kind, 1)),
      Field(true, false, 8, ToBe(d.code, 1)),
      Field(true, true, 16, ToBe(cksum, 2)),
      Field(HasIdSeq(d), false, 16, ToBe(d.identifier, 2)),
      Field(HasIdSeq(d), false, 16, ToBe(d.sequence, 2))
    ]
  }

  /** The size of the header in bytes. */
  function Size(d: Config): nat { if HasIdSeq(d) then 8 else 4 }

  lemma FieldsLaidOut(d: Config, cksum: nat)
    ensures var fs := Fields(d, cksum);
            && AllEncoded(fs) && LayoutOk(Sizes(fs)) && HasCksum(fs, CKSUM) && CksumAt(fs, CKSUM) == 2
            && (TotalBits(Sizes(fs)) + 7) / 8 == Size(d)
  {
    hide Laid;
    var n := if HasIdSeq(d) then 16 else 0;
    NothingLaid();
    Lay([], 0, 8, [8]);
    Lay([8], 8, 8, [8, 8]);
    Lay([8, 8], 16, 16, [8, 8, 16]);
    Lay([8, 8, 16], 32, n, [8, 8, 16, n]);
    Lay([8, 8, 16, n], 32 + n, n, [8, 8, 16, n, n]);
    LaidOut(d, cksum, n);
  }

  lemma LaidOut(d: Config, cksum: nat, n: nat)
    requires n == if HasIdSeq(d) then 16 else 0
    requires Laid([8, 8, 16, n, n], 32 + n + n) && Laid([8, 8], 16)
    ensures var fs := Fields(d, cksum);
            && AllEncoded(fs) && LayoutOk(Sizes(fs)) && HasCksum(fs, CKSUM) && CksumAt(fs, CKSUM) == 2
            && TotalBits(Sizes(fs)) == 32 + n + n
  {
    hide LayoutOk, TotalBits;
    assert Sizes(Fields(d, cksum)) == [8, 8, 16, n, n];
    assert Sizes(Fields(d, cksum))[..2] == [8, 8];
  }

  // ------- the message -------

  /** What the sender needs beyond the configuration: the variable fields, which spare the
      checksum and are not random. */
  predicate Ready(d: Config, vfs: seq<VariableField>) {
    Countable(vfs) && NoRandom(vfs) && Spared(vfs, Size(d), 2)
  }

  /** The header packed for its checksum. */
  function Zeroed(d: Config, vfs: seq<VariableField>, rnds: seq<nat>, i: nat): seq<byte>
    requires Countable(vfs) && |rnds| == |vfs|
  {
    FieldsLaidOut(d, 0);
    PreparedEncoded(Fields(d, 0), true);
    FrameValue(Fields(d, 0), vfs, rnds, i, true)
  }

  /** The pseudo-header checksum counts for version 6 only. */
  function Cover(d: Config, pseudo: u16): Option<u16> { if d.version == Icmp6 then Some(pseudo) else None }

  function CksumOf(d: Config, own: seq<byte>, payload: u16, pseudo: u16): u16 {
    if d.isOverrideChecksum then d.checksum % 0x1_0000
    else Combined(Rfc1071(own), payload, Cover(d, pseudo))
  }

  /** The header as it is sent. */
  function Message(d: Config, vfs: seq<VariableField>, rnds: seq<nat>, i: nat, cksum: u16): seq<byte>
    requires Countable(vfs) && |rnds| == |vfs|
  {
    FieldsLaidOut(d, cksum);
    PreparedEncoded(Fields(d, cksum), false);
    FrameValue(Fields(d, cksum), vfs, rnds, i, false)
  }

  /** protocolFrameValue of an ICMP protocol; `rnds` are the random numbers drawn while the
      checksum is computed, `rnds'` those drawn for the frame. */
  method BuildMessage(d: Config, vfs: seq<VariableField>, rnds: seq<nat>, rnds': seq<nat>, i: nat,
                      payload: u16, pseudo: u16) returns (frame: seq<byte>)
    requires Countable(vfs) && |rnds| == |rnds'| == |vfs|
    ensures frame == Message(d, vfs, rnds', i, CksumOf(d, Zeroed(d, vfs, rnds, i), payload, pseudo))
  {
    hide FrameValue, Combined, Rfc1071;
    var cksum := d.checksum % 0x1_0000;
    if !d.isOverrideChecksum {
      FieldsLaidOut(d, 0);
      PreparedEncoded(Fields(d, 0), true);
      var fv := ProtocolFrameValue(Fields(d, 0), vfs, rnds, i, true);
      var own := CksumIp(fv);
      cksum := CombineCksums(own, payload, Cover(d, pseudo));
    }
    FieldsLaidOut(d, cksum);
    PreparedEncoded(Fields(d, cksum), false);
    frame := ProtocolFrameValue(Fields(d, cksum), vfs, rnds', i, false);
  }

  lemma MessageSum(d: Config, vfs: seq<VariableField>, rnds: seq<nat>, rnds': seq<nat>, i: nat, cksum: u16)
    requires Ready(d, vfs) && |rnds| == |rnds'| == |vfs|
    ensures |Message(d, vfs, rnds', i, cksum)| == Size(d)
    ensures OctetSum(Message(d, vfs, rnds', i, cksum), true) == OctetSum(Zeroed(d, vfs, rnds, i), true) + cksum
  {
    hide FrameValue, OctetSum, TotalBits, LayoutOk, Spared, Size;
    FieldsLaidOut(d, cksum);
    FieldsLaidOut(d, 0);
    ZeroedAlike(d, cksum);
    EmittedSum(Fields(d, cksum), Fields(d, 0), CKSUM, cksum, vfs, rnds, rnds', i);
  }

  lemma ZeroedAlike(d: Config, cksum: nat)
    ensures PreparedAll(Fields(d, 0), true) == PreparedAll(Fields(d, cksum), true)
  {
  }

  /** The message with zeros for its checksum is the one the checksum was computed over, and the
      checksum in it is the given one. */
  lemma CksumWritten(d: Config, vfs: seq<VariableField>, rnds: seq<nat>, rnds': seq<nat>, i: nat, cksum: u16)
    requires Ready(d, vfs) && |rnds| == |rnds'| == |vfs|
    ensures var m := Message(d, vfs, rnds', i, cksum);
            && |m| == Size(d) && FromBe(m[2..4]) == cksum
            && m[..2] + [0, 0] + m[4..] == Zeroed(d, vfs, rnds, i)
  {
    hide FrameValue, TotalBits, LayoutOk, Spared, Size, ToBe, FromBe;
    FieldsLaidOut(d, cksum);
    FieldsLaidOut(d, 0);
    ZeroedAlike(d, cksum);
    CksumInPlace(Fields(d, cksum), Fields(d, 0), CKSUM, vfs, rnds, rnds', i);
    ReadBack(cksum);
  }

  // ------- the verdict -------

  /** The message with the checksum computed over `levels`, the protocols that follow it. */
  function Sent(d: Config, vfs: seq<VariableField>, rnds: seq<nat>, rnds': seq<nat>, i: nat,
                pseudo: u16, offset: nat, levels: seq<Chain>): seq<byte>
    requires Countable(vfs) && |rnds| == |rnds'| == |vfs| && |levels| > 0
  {
    Message(d, vfs, rnds', i, CksumOf(d, Zeroed(d, vfs, rnds, i), PayloadCksum(offset, levels), pseudo))
  }

  /** The pseudo header the receiver puts in front: none for version 4. */
  predicate PseudoHeader(d: Config, pseudo: u16, header: seq<byte>) {
    if d.version == Icmp4 then header == [] else Covers(Some(pseudo), header)
  }

  lemma HeaderCovered(d: Config, pseudo: u16, header: seq<byte>)
    requires PseudoHeader(d, pseudo, header)
    ensures Covers(Cover(d, pseudo), header)
  {
  }

  ghost predicate AllAccepted(d: Config, vfs: seq<VariableField>, rnds: seq<nat>, rnds': seq<nat>, i: nat,
                              pseudo: u16, header: seq<byte>, offset: nat, shape: seq<Lens>)
    requires Countable(vfs) && |rnds| == |rnds'| == |vfs| && |shape| > 0
  {
    forall levels: seq<Chain> :: LevelsOf(levels, shape) ==>
      Accepts(WordSum(header + Sent(d, vfs, rnds, rnds', i, pseudo, offset, levels) + JoinAll(levels)))
  }

  lemma SentSum(d: Config, vfs: seq<VariableField>, rnds: seq<nat>, rnds': seq<nat>, i: nat,
                pseudo: u16, offset: nat, levels: seq<Chain>)
    requires Ready(d, vfs) && |rnds| == |rnds'| == |vfs| && |levels| > 0 && !d.isOverrideChecksum
    ensures var m, z := Sent(d, vfs, rnds, rnds', i, pseudo, offset, levels), Zeroed(d, vfs, rnds, i);
            && |m| % 2 == 0
            && OctetSum(m, true)
            == OctetSum(z, true) + Combined(Rfc1071(z), PayloadCksum(offset, levels), Cover(d, pseudo))
  {
    hide OctetSum, Combined, PayloadCksum, Rfc1071, Cover, Zeroed, Message, Spared;
    MessageSum(d, vfs, rnds, rnds', i, CksumOf(d, Zeroed(d, vfs, rnds, i), PayloadCksum(offset, levels), pseudo));
  }

  /** Whatever the bytes of the payload, the receiver accepts the message, if and only if the
      lengths of the protocols that make up the payload let their checksums combine. */
  lemma AcceptedIff(d: Config, vfs: seq<VariableField>, rnds: seq<nat>, rnds': seq<nat>, i: nat,
                    pseudo: u16, header: seq<byte>, offset: nat, shape: seq<Lens>)
    requires Ready(d, vfs) && |rnds| == |rnds'| == |vfs| && |shape| > 0
    requires !d.isOverrideChecksum && PseudoHeader(d, pseudo, header)
    ensures AllAccepted(d, vfs, rnds, rnds', i, pseudo, header, offset, shape) <==> ShapeOk(offset, offset, shape)
  {
    HeaderCovered(d, pseudo, header);
    hide OctetSum, Combined, PayloadCksum, Rfc1071, Covers, Sent, Zeroed, WordSum, JoinAll, Accepts, ShapeOk, Spared;
    var z := Zeroed(d, vfs, rnds, i);
    if ShapeOk(offset, offset, shape) {
      forall levels: seq<Chain> | LevelsOf(levels, shape)
        ensures Accepts(WordSum(header + Sent(d, vfs, rnds, rnds', i, pseudo, offset, levels) + JoinAll(levels)))
      {
        SentSum(d, vfs, rnds, rnds', i, pseudo, offset, levels);
        ShapeAccepts(header, z, Sent(d, vfs, rnds, rnds', i, pseudo, offset, levels), offset, levels, shape,
            Cover(d, pseudo));
      }
    } else {
      var levels := ShapeMiscounts(shape, offset);
      SentSum(d, vfs, rnds, rnds', i, pseudo, offset, levels);
      ShapeRefused(header, z, Sent(d, vfs, rnds, rnds', i, pseudo, offset, levels), offset, levels,
                   Cover(d, pseudo));
    }
  }

  /** The checksum sent is the user's, or that of RFC 792 and RFC 4443 section 2.3 over pseudo
      header, message and payload, where the payload checksum is that of the payload. */
  lemma ChecksumSent(d: Config, vfs: seq<VariableField>, rnds: seq<nat>, rnds': seq<nat>, i: nat,
                     pseudo: u16, header: seq<byte>, offset: nat, levels: seq<Chain>)
    requires Ready(d, vfs) && |rnds| == |rnds'| == |vfs| && |levels| > 0 && PseudoHeader(d, pseudo, header)
    ensures var m := Sent(d, vfs, rnds, rnds', i, pseudo, offset, levels);
            && |m| == Size(d)
            && (d.isOverrideChecksum ==> FromBe(m[2..4]) == d.checksum % 0x1_0000)
            && (!d.isOverrideChecksum && PayloadCksum(offset, levels) == Rfc1071(JoinAll(levels)) ==>
                  FromBe(m[2..4]) == Rfc1071(header + (m[..2] + [0, 0] + m[4..]) + JoinAll(levels)))
  {
    hide Combined, Rfc1071, PayloadCksum, JoinAll, Covers, PseudoHeader, Spared, Message, Zeroed, FromBe, WordSum;
    var (z, p) := (Zeroed(d, vfs, rnds, i), PayloadCksum(offset, levels));
    var m := Sent(d, vfs, rnds, rnds', i, pseudo, offset, levels);
    CksumWritten(d, vfs, rnds, rnds', i, CksumOf(d, z, p, pseudo));
    hide Sent;
    if !d.isOverrideChecksum && p == Rfc1071(JoinAll(levels)) {
      HeaderCovered(d, pseudo, header);
      assert m[..2] + [0, 0] + m[4..] == z && |z| % 2 == 0;
      CombinedIsRfc1071(header, z, JoinAll(levels), Cover(d, pseudo));
    }
  }
}
