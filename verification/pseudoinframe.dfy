/**
 The pseudo-header checksum that a protocol in a frame finds, compared with the pseudo header its
 receiver adds up.  When the nearest IP header is not in the protocol's own chain, the checksum is
 that of the combination it belongs to, with the length and the number of that.
 */
module PseudoInFrame {
  import opened Options
  import opened Bytes
  import opened Checksum
  import opened PayloadChecksum
  import opened ProtocolChain
  import opened Receiver
  import opened IpCksum

  lemma {:induction false} PayloadBytes(path: seq<Level>)
    requires InRange(path) && Sized(path)
    ensures |JoinAll(Levels(path))| == PayloadSize(path)
    decreases |path|
  {
    hide Frames, SumSizes, Join;
    LevelsParts(path);
    JoinedSize(path[0].chain[path[0].at + 1..]);
    if |path| > 1 { PayloadBytes(path[1..]); }
  }

  /** The path from the level on where the nearest IP header is; empty if there is none. */
  ghost function IpPath(path: seq<Level>): (p: seq<Level>)
    requires InRange(path)
    ensures p != [] ==> InRange(p) && NearestIp(p[0].chain, p[0].at).Some?
    decreases |path|
  {
    if NearestIp(path[0].chain, path[0].at).Some? then path
    else if |path| > 1 then IpPath(path[1..])
    else []
  }

  /** The nearest IP header has these addresses. */
  ghost predicate HasIp(path: seq<Level>, addresses: seq<byte>)
    requires InRange(path)
  {
    var p := IpPath(path);
    p != [] && |addresses| % 2 == 0 && NearestIp(p[0].chain, p[0].at) == Some(Rfc1071(addresses))
  }

  /** The length and the number that go into the pseudo-header checksum. */
  ghost function Claimed(path: seq<Level>): nat
    requires InRange(path) && IpPath(path) != []
  {
    var p := IpPath(path);
    Here(p).FrameSize() + PayloadSize(p) + Here(p).ipProtocolId
  }

  lemma {:induction false} HeaderCksumIs(path: seq<Level>, addresses: seq<byte>)
    requires InRange(path) && HasIp(path, addresses)
    ensures HeaderCksum(path) == PseudoCksum(addresses, Claimed(path), 0)
    decreases |path|
  {
    hide Rfc1071, Fold, PayloadSize;
    if NearestIp(path[0].chain, path[0].at).None? { HeaderCksumIs(path[1..], addresses); }
  }

  /** A pseudo header of these addresses, `length` and `number`, however it is laid out. */
  lemma ClaimIff(path: seq<Level>, addresses: seq<byte>, header: seq<byte>, length: nat, number: nat)
    requires InRange(path) && HasIp(path, addresses)
    requires number > 0 && Covers(Some(PseudoCksum(addresses, length, number)), header)
    ensures WordSum(header) > 0
    ensures WordSum(header) % 0xFFFF == Inv(HeaderCksum(path)) % 0xFFFF
        <==> Claimed(path) % 0xFFFF == (length + number) % 0xFFFF
  {
    hide WordSum, Rfc1071, OctetSum, HeaderCksum, Claimed, Fold, PseudoCksum;
    HeaderCksumIs(path, addresses);
    var (a, c) := (OctetSum(addresses, true), Claimed(path));
    PseudoFolds(addresses, c, 0, c);
    PseudoFolds(addresses, length, number, length + number);
    var (mine, theirs) := (Inv(PseudoCksum(addresses, c, 0)), Inv(PseudoCksum(addresses, length, number)));
    SameFold(mine, a + c);
    SameFold(theirs, a + (length + number));
    SameFold(theirs, WordSum(header));
    SameShift(c, length + number, a);
  }

  lemma SameFold(x: nat, y: nat)
    requires Fold(x) == Fold(y)
    ensures x % 0xFFFF == y % 0xFFFF && (x > 0 <==> y > 0)
  {
    if x > 0 {
      FoldMod(x);
      FoldMod(y);
    }
  }

  lemma Claim6Iff(path: seq<Level>, addresses: seq<byte>, length: nat, next: byte)
    requires InRange(path) && HasIp(path, addresses) && length < 0x1_0000_0000 && next > 0
    ensures var header := Pseudo6(addresses, length, next);
            && |header| % 2 == 0 && WordSum(header) > 0
            && (WordSum(header) % 0xFFFF == Inv(HeaderCksum(path)) % 0xFFFF
                <==> Claimed(path) % 0xFFFF == (length + next) % 0xFFFF)
  {
    hide WordSum, HeaderCksum, Claimed, PseudoCksum, Fold, Rfc1071;
    Pseudo6Covers(addresses, length, next);
    ClaimIff(path, addresses, Pseudo6(addresses, length, next), length, next);
  }

  lemma Claim4Iff(path: seq<Level>, addresses: seq<byte>, length: nat, protocol: byte)
    requires InRange(path) && HasIp(path, addresses) && length < 0x1_0000 && protocol > 0
    ensures var header := Pseudo4(addresses, length, protocol);
            && |header| % 2 == 0 && WordSum(header) > 0
            && (WordSum(header) % 0xFFFF == Inv(HeaderCksum(path)) % 0xFFFF
                <==> Claimed(path) % 0xFFFF == (length + protocol) % 0xFFFF)
  {
    hide WordSum, HeaderCksum, Claimed, PseudoCksum, Fold, Rfc1071;
    Pseudo4Covers(addresses, length, protocol);
    ClaimIff(path, addresses, Pseudo4(addresses, length, protocol), length, protocol);
  }
}
