/**
 The linked chain of protocols of a frame.  A protocol knows its neighbours and, when it
 is half of a combined protocol, the combined one as its parent.  Offsets, payload sizes
 and the checksums over neighbours are computed by walking these links.
 */
module ProtocolChain {
  import opened Options
  import opened Bytes
  import opened Checksum
  import opened PayloadChecksum

  /** One protocol, with what its virtual functions answer for the frame being built. */
  class Protocol {
    var prev: Protocol?
    var next: Protocol?
    var parent: Protocol?

    const bits: nat                 // the sizes of its frame fields, added up
    const forCksum: seq<byte>       // protocolFrameValue(forCksum = true)
    const pseudoCksum: Option<u16>  // protocolFrameCksum(CksumIpPseudo), for IP only
    const ipProtocolId: nat         // protocolId(ProtocolIdIp)

    constructor (bits: nat, forCksum: seq<byte>, pseudoCksum: Option<u16>, ipProtocolId: nat)
      ensures prev == null && next == null && parent == null
      ensures this.bits == bits && this.forCksum == forCksum
      ensures this.pseudoCksum == pseudoCksum && this.ipProtocolId == ipProtocolId
    {
      prev, next, parent := null, null, null;
      this.bits, this.forCksum, this.pseudoCksum, this.ipProtocolId := bits, forCksum, pseudoCksum, ipProtocolId;
    }

    /** The constructor of ComboProtocol: the two halves under this one.  Its fields are theirs;
        the left half gives its number, the right half its pseudo-header checksum. */
    constructor Combo(a: Protocol, b: Protocol, forCksum: seq<byte>)
      requires a != b && a.prev == null && b.next == null
      modifies a`next, a`parent, b`prev, b`parent
      ensures prev == null && next == null && parent == null && this.forCksum == forCksum
      ensures Linked([a, b], this) && Halves([a, b], this)
    {
      prev, next, parent := null, null, null;
      bits := a.bits + b.bits;
      this.forCksum := forCksum;
      pseudoCksum, ipProtocolId := b.pseudoCksum, a.ipProtocolId;
      new;
      a.parent, b.parent := this, this;
      a.next := b;
      b.prev := a;
    }

    /** protocolFrameSize: whole bytes. */
    function FrameSize(): nat { (bits + 7) / 8 }

    /** The bytes of the frame before this protocol. */
    method ProtocolFrameOffset(ghost path: seq<Level>) returns (size: nat)
      requires Placed(path) && Here(path) == this
      ensures size == Offset(path)
      decreases |path|
    {
      size := 0;
      var p := prev;
      ghost var (chain, k) := (path[0].chain, path[0].at);
      while p != null
        invariant 0 <= k <= path[0].at
        invariant p == if k > 0 then chain[k - 1] else null
        invariant size + SumSizes(chain[..k]) == SumSizes(chain[..path[0].at])
        decreases k
      {
        assert chain[..k][..k - 1] == chain[..k - 1];
        size := size + p.FrameSize();
        p := p.prev;
        k := k - 1;
      }
      PlacedAbove(path);
      if parent != null {
        var up := parent.ProtocolFrameOffset(path[1..]);
        size := size + up;
      }
    }

    /** The bytes of the frame after this protocol. */
    method ProtocolFramePayloadSize(ghost path: seq<Level>) returns (size: nat)
      requires Placed(path) && Here(path) == this
      ensures size == PayloadSize(path)
      decreases |path|
    {
      hide SumSizes, Halves;
      size := 0;
      var p := next;
      ghost var (chain, k) := (path[0].chain, path[0].at + 1);
      while p != null
        invariant path[0].at < k <= |chain|
        invariant p == if k < |chain| then chain[k] else null
        invariant size + SumSizes(chain[k..]) == SumSizes(chain[path[0].at + 1..])
        decreases |chain| - k
      {
        SumBehind(chain, k);
        size := size + p.FrameSize();
        p := p.next;
        k := k + 1;
      }
      NoneBehind(chain);
      PlacedAbove(path);
      if parent != null {
        var up := parent.ProtocolFramePayloadSize(path[1..]);
        size := size + up;
      }
    }

    /** The checksum of this protocol, swapped if it starts at an odd offset. */
    method CksumAtOffset(ghost path: seq<Level>) returns (cksum: u16)
      requires Placed(path) && Here(path) == this
      ensures cksum == SwappedCksum(forCksum, Offset(path))
    {
      cksum := CksumIp(forCksum);
      var offset := ProtocolFrameOffset(path);
      if offset % 2 == 1 {
        cksum := Swap16(cksum);
      }
    }

    /** The checksums of the protocols after this one in its chain, added up. */
    method AddPayloadCksums(ghost path: seq<Level>) returns (sum: nat)
      requires Placed(path) && Here(path) == this && Sized(path)
      requires next != null
      ensures sum == SumAfter(path)
      ensures sum <= 0xFFFF * (|path[0].chain| - 1)
    {
      hide SumFrom, SumAfter, Rfc1071, SwappedCksum, Offset, Add32;
      var p := next;
      ghost var (chain, k) := (path[0].chain, path[0].at + 2);
      var cksum := CksumIp(p.forCksum);
      sum := Inv(cksum);
      p := p.next;
      SumAfterFirst(path);
      while p != null
        invariant Placed(path)
        invariant path[0].at + 1 < k <= |chain|
        invariant p == if k < |chain| then chain[k] else null
        invariant sum <= 0xFFFF * (k - 1)
        invariant sum + SumFrom(path, k) == SumAfter(path)
        decreases |chain| - k
      {
        PlacedBeside(path, k);
        LaterStep(path, k);
        cksum := p.CksumAtOffset(path[0 := Level(chain, k)]);
        NoOverflow(sum, Inv(cksum), k);
        sum := Add32(sum, Inv(cksum));
        p := p.next;
        k := k + 1;
      }
    }

    /** The checksum over everything after this protocol. */
    method ProtocolFramePayloadCksum(ghost path: seq<Level>) returns (cksum: u16)
      requires Placed(path) && Here(path) == this
      requires Balanced(path) && Sized(path)
      ensures cksum == CksumAfter(path)
      decreases |path|
    {
      if next == null {
        NothingAfter(path);
        return 0xFFFF;
      }
      var sum := AddPayloadCksums(path);
      PlacedAbove(path);
      Collected(path);
      if parent != null {
        SizedAbove(path);
        cksum := parent.ProtocolFramePayloadCksum(path[1..]);
        NoOverflow(sum, Inv(cksum), |path[0].chain|);
        sum := Add32(sum, Inv(cksum));
      }
      sum := FoldCarries(sum);
      cksum := Inv(sum);
    }

    /** The pseudo-header checksum: the addresses of the nearest IP header before this
        protocol, the length from here on, and this protocol's number. */
    method ProtocolFrameHeaderCksum(ghost path: seq<Level>) returns (cksum: u16)
      requires Placed(path) && Here(path) == this
      requires HeaderFits(path)
      ensures cksum == HeaderCksum(path)
      decreases |path|
    {
      var sum: nat := 0;
      var p := prev;
      ghost var (chain, k) := (path[0].chain, path[0].at);
      while p != null
        invariant 0 <= k <= path[0].at
        invariant p == if k > 0 then chain[k - 1] else null
        invariant NearestIp(chain, k) == NearestIp(chain, path[0].at)
        decreases k
      {
        if p.pseudoCksum.Some? {
          var payload := ProtocolFramePayloadSize(path);
          sum := Inv(p.pseudoCksum.value) + (FrameSize() + payload) + ipProtocolId;
          sum := FoldCarries(sum);
          return Inv(sum);
        }
        p := p.prev;
        k := k - 1;
      }
      PlacedAbove(path);
      if parent != null {
        cksum := parent.ProtocolFrameHeaderCksum(path[1..]);
        sum := Inv(cksum);
      }
      sum := FoldCarries(sum);
      FoldOfWord(sum);
      cksum := Inv(sum);
    }
  }

  /** `sum += x` in a 32-bit word */
  function Add32(sum: nat, x: nat): nat { (sum + x) % 0x1_0000_0000 }

  lemma NoOverflow(sum: nat, x: u16, k: nat)
    requires 0 < k <= 0x1_0000 && sum <= 0xFFFF * (k - 1)
    ensures Add32(sum, x) == sum + x <= 0xFFFF * k < 0x1_0000_0000
  {
  }

  // ------- where a protocol is -------

  /** A chain and a position in it; a path lists the level of a protocol, then that of its
      parent, up to the chain of the frame. */
  datatype Level = Level(chain: seq<Protocol>, at: nat)

  ghost predicate Linked(chain: seq<Protocol>, up: Protocol?)
    reads chain
  {
    && (forall i {:trigger chain[i].prev} :: 0 <= i < |chain| ==>
          chain[i].prev == if i > 0 then chain[i - 1] else null)
    && (forall i {:trigger chain[i].next} :: 0 <= i < |chain| ==>
          chain[i].next == if i + 1 < |chain| then chain[i + 1] else null)
    && (forall i :: 0 <= i < |chain| ==> chain[i].parent == up)
  }

  ghost predicate InRange(path: seq<Level>) {
    path != [] && forall l :: 0 <= l < |path| ==> path[l].at < |path[l].chain|
  }

  ghost function Here(path: seq<Level>): Protocol
    requires InRange(path)
  {
    path[0].chain[path[0].at]
  }

  ghost function Nodes(path: seq<Level>): set<Protocol> {
    set l, i | 0 <= l < |path| && 0 <= i < |path[l].chain| :: path[l].chain[i]
  }

  /** The parent of the chain at level `l`. */
  ghost function Up(path: seq<Level>, l: nat): Protocol?
    requires InRange(path)
  {
    if l + 1 < |path| then path[l + 1].chain[path[l + 1].at] else null
  }

  /** The chain is that of the two halves of a combined protocol. */
  ghost predicate Halves(chain: seq<Protocol>, up: Protocol) {
    && |chain| == 2 && up.bits == chain[0].bits + chain[1].bits
    && up.pseudoCksum == chain[1].pseudoCksum && up.ipProtocolId == chain[0].ipProtocolId
  }

  /** Only the chain of the frame itself has no parent; the others are pairs of halves. */
  ghost predicate Nested(path: seq<Level>) {
    InRange(path) && forall l :: 0 <= l < |path| - 1 ==> Halves(path[l].chain, path[l + 1].chain[path[l + 1].at])
  }

  ghost predicate Placed(path: seq<Level>)
    reads Nodes(path)
  {
    Nested(path) && forall l :: 0 <= l < |path| ==> Linked(path[l].chain, Up(path, l))
  }

  lemma NestedAbove(path: seq<Level>)
    requires Nested(path) && |path| > 1
    ensures Nested(path[1..]) && Halves(path[0].chain, Here(path[1..]))
  {
    forall l | 0 <= l < |path[1..]| - 1
      ensures Halves(path[1..][l].chain, path[1..][l + 1].chain[path[1..][l + 1].at])
    {
      assert path[1..][l] == path[l + 1] && path[1..][l + 1] == path[l + 2];
      assert Halves(path[l + 1].chain, path[l + 2].chain[path[l + 2].at]);
    }
  }

  lemma PlacedAbove(path: seq<Level>)
    requires Placed(path)
    ensures Here(path).parent == Up(path, 0)
    ensures |path| > 1 ==> Placed(path[1..]) && Here(path[1..]) == Up(path, 0)
  {
    if |path| > 1 {
      NestedAbove(path);
      forall l | 0 <= l < |path[1..]| ensures Linked(path[1..][l].chain, Up(path[1..], l)) {
        assert path[1..][l] == path[l + 1];
        assert Linked(path[l + 1].chain, Up(path, l + 1));
      }
    }
  }

  lemma PlacedBeside(path: seq<Level>, k: nat)
    requires Placed(path) && k < |path[0].chain|
    ensures Placed(path[0 := Level(path[0].chain, k)])
  {
    var q := path[0 := Level(path[0].chain, k)];
    forall l | 0 <= l < |q| ensures Linked(q[l].chain, Up(q, l)) {
      assert Linked(path[l].chain, Up(path, l));
    }
  }

  // ------- sizes -------

  ghost function SumSizes(chain: seq<Protocol>): nat
  {
    if chain == [] then 0 else SumSizes(chain[..|chain| - 1]) + chain[|chain| - 1].FrameSize()
  }

  lemma {:induction false} SumFront(chain: seq<Protocol>)
    requires chain != []
    ensures SumSizes(chain) == chain[0].FrameSize() + SumSizes(chain[1..])
  {
    if |chain| > 1 {
      SumFront(chain[..|chain| - 1]);
      assert chain[..|chain| - 1][1..] == chain[1..][..|chain| - 2];
    }
  }

  lemma NoneBehind(chain: seq<Protocol>)
    ensures SumSizes(chain[|chain|..]) == 0
  {
  }

  lemma SumBehind(chain: seq<Protocol>, k: nat)
    requires k < |chain|
    ensures SumSizes(chain[k..]) == chain[k].FrameSize() + SumSizes(chain[k + 1..])
  {
    SumFront(chain[k..]);
    assert chain[k..][1..] == chain[k + 1..];
  }

  lemma {:induction false} SumSplit(chain: seq<Protocol>, k: nat)
    requires k <= |chain|
    ensures SumSizes(chain) == SumSizes(chain[..k]) + SumSizes(chain[k..])
  {
    if k == |chain| {
      assert chain[..k] == chain;
    } else {
      SumSplit(chain[..|chain| - 1], k);
      assert chain[..|chain| - 1][..k] == chain[..k];
      assert chain[..|chain| - 1][k..] == chain[k..][..|chain| - k - 1];
    }
  }

  ghost function Offset(path: seq<Level>): nat
    requires InRange(path)
    decreases |path|
  {
    SumSizes(path[0].chain[..path[0].at]) + if |path| > 1 then Offset(path[1..]) else 0
  }

  ghost function PayloadSize(path: seq<Level>): nat
    requires InRange(path)
    decreases |path|
  {
    SumSizes(path[0].chain[path[0].at + 1..]) + if |path| > 1 then PayloadSize(path[1..]) else 0
  }

  /** Rounding two sizes in bits up to bytes loses nothing, together or apart. */
  predicate RoundsAlike(a: nat, b: nat) { a % 8 == 0 || b % 8 == 0 || a % 8 + b % 8 > 8 }

  lemma RoundsAlikeIff(a: nat, b: nat)
    ensures (a + b + 7) / 8 <= (a + 7) / 8 + (b + 7) / 8
    ensures (a + b + 7) / 8 == (a + 7) / 8 + (b + 7) / 8 <==> RoundsAlike(a, b)
  {
    var (i, r, j, s) := (a / 8, a % 8, b / 8, b % 8);
    RoundUp(i, r);
    RoundUp(j, s);
    if r + s < 8 { RoundUp(i + j, r + s); } else { RoundUp(i + j + 1, r + s - 8); }
  }

  lemma RoundUp(q: nat, r: nat)
    requires r < 8
    ensures (8 * q + r + 7) / 8 == q + if r == 0 then 0 else 1
  {
  }

  /** A condition on the fields: on every level the halves round as they do together. */
  ghost predicate Balanced(path: seq<Level>)
    requires Nested(path)
    decreases |path|
  {
    if |path| == 1 then true
    else
      NestedAbove(path);
      RoundsAlike(path[0].chain[0].bits, path[0].chain[1].bits) && Balanced(path[1..])
  }

  /** Every left half on the path is whole bytes. */
  ghost predicate LeftsWhole(path: seq<Level>)
    requires Nested(path)
  {
    forall l :: 0 <= l < |path| - 1 ==> path[l].chain[0].bits % 8 == 0
  }

  lemma {:induction false} LeftsWholeBalanced(path: seq<Level>)
    requires Nested(path) && LeftsWhole(path)
    ensures Balanced(path)
    decreases |path|
  {
    if |path| > 1 {
      NestedAbove(path);
      assert path[0].chain[0].bits % 8 == 0;
      forall l | 0 <= l < |path[1..]| - 1 ensures path[1..][l].chain[0].bits % 8 == 0 {
        assert path[1..][l] == path[l + 1];
      }
      LeftsWholeBalanced(path[1..]);
    }
  }

  /** A combination is at most as long as its halves, and as long when they round alike. */
  lemma HalvesSize(chain: seq<Protocol>, up: Protocol)
    requires Halves(chain, up)
    ensures up.FrameSize() <= SumSizes(chain)
    ensures up.FrameSize() == SumSizes(chain) <==> RoundsAlike(chain[0].bits, chain[1].bits)
  {
    assert chain[..1][..0] == [] && chain[..1][0] == chain[0];
    assert SumSizes(chain[..1]) == chain[0].FrameSize();
    RoundsAlikeIff(chain[0].bits, chain[1].bits);
  }

  /** What comes before a protocol, itself and what comes after it. */
  ghost function Around(path: seq<Level>): nat
    requires InRange(path)
  {
    Offset(path) + Here(path).FrameSize() + PayloadSize(path)
  }

  lemma AroundStep(path: seq<Level>)
    requires InRange(path)
    ensures Around(path) == SumSizes(path[0].chain)
              + if |path| > 1 then Offset(path[1..]) + PayloadSize(path[1..]) else 0
  {
    var (chain, at) := (path[0].chain, path[0].at);
    SumSplit(chain, at);
    SumFront(chain[at..]);
    assert chain[at..][1..] == chain[at + 1..];
  }

  /** Whatever the protocol and however deep it is nested, what comes before it, itself and
      what comes after it make up the frame, if and only if the halves on the path round as
      they do together; otherwise they make up more than the frame. */
  lemma {:induction false} LengthConservedIff(path: seq<Level>)
    requires Nested(path)
    ensures Around(path) >= SumSizes(path[|path| - 1].chain)
    ensures Around(path) == SumSizes(path[|path| - 1].chain) <==> Balanced(path)
    decreases |path|
  {
    hide Halves, RoundsAlike, Offset, PayloadSize, SumSizes;
    AroundStep(path);
    if |path| > 1 {
      NestedAbove(path);
      HalvesSize(path[0].chain, Here(path[1..]));
      LengthConservedIff(path[1..]);
    }
  }

  /** In particular for left halves of whole bytes. */
  lemma LengthConserved(path: seq<Level>)
    requires Nested(path) && LeftsWhole(path)
    ensures Offset(path) + Here(path).FrameSize() + PayloadSize(path) == SumSizes(path[|path| - 1].chain)
  {
    LeftsWholeBalanced(path);
    LengthConservedIff(path);
  }

  // ------- padding -------

  const FCS_SIZE := 4

  /** protocolFrameSize of a hex dump, which may pad the frame to its full length. */
  method HexDumpFrameSize(p: Protocol, ghost path: seq<Level>, content: seq<byte>, padUntilEnd: bool, frameLen: nat)
      returns (len: int)
    requires Placed(path) && Here(path) == p
    ensures len == HexDumpSize(path, |content|, p.next == null && padUntilEnd, frameLen)
    ensures len >= |content| && (len > |content| ==> p.next == null && padUntilEnd)
    ensures p.next == null && padUntilEnd ==>
              var frame := Offset(path) + len + PayloadSize(path) + 4;
              frame >= frameLen && (len > |content| ==> frame == frameLen)
  {
    len := |content|;
    if p.next == null && padUntilEnd {
      var offset := p.ProtocolFrameOffset(path);
      var payload := p.ProtocolFramePayloadSize(path);
      var pad := frameLen - (offset + len + payload + FCS_SIZE);
      if pad < 0 {
        pad := 0;
      }
      len := len + pad;
    }
  }

  ghost function HexDumpSize(path: seq<Level>, content: nat, pad: bool, frameLen: nat): nat
    requires InRange(path)
  {
    var rest := Offset(path) + content + PayloadSize(path) + FCS_SIZE;
    if pad && frameLen > rest then content + (frameLen - rest) else content
  }

  /** With its check sequence of four bytes, a frame with a padding hex dump is exactly as long as
      the stream asks for, provided it is not too long already. */
  lemma PaddingFillsIff(path: seq<Level>, content: nat, frameLen: nat)
    requires Nested(path) && Balanced(path)
    requires Here(path).FrameSize() == HexDumpSize(path, content, true, frameLen)
    ensures SumSizes(path[|path| - 1].chain) + 4 == frameLen
        <==> Offset(path) + content + PayloadSize(path) + 4 <= frameLen
  {
    LengthConservedIff(path);
  }

  // ------- the bytes after a protocol, and their offsets -------

  ghost function Frames(chain: seq<Protocol>): (ms: Chain)
    ensures |ms| == |chain| && forall i :: 0 <= i < |chain| ==> ms[i] == chain[i].forCksum
  {
    if chain == [] then [] else [chain[0].forCksum] + Frames(chain[1..])
  }

  ghost function Levels(path: seq<Level>): (levels: seq<Chain>)
    requires InRange(path)
    ensures |levels| == |path|
    decreases |path|
  {
    [Frames(path[0].chain[path[0].at + 1..])] + if |path| > 1 then Levels(path[1..]) else []
  }

  /** Every protocol's bytes are as many as its size, and a chain is short enough for a
      32-bit sum of checksums. */
  ghost predicate Sized(path: seq<Level>)
  {
    forall l :: 0 <= l < |path| ==>
      && |path[l].chain| <= 0x1_0000
      && forall i :: 0 <= i < |path[l].chain| ==> |path[l].chain[i].forCksum| == path[l].chain[i].FrameSize()
  }

  /** The offset of the member at position `k` of the chain of the protocol. */
  ghost function OffsetOf(path: seq<Level>, k: nat): nat
    requires InRange(path) && k <= |path[0].chain|
  {
    SumSizes(path[0].chain[..k]) + if |path| > 1 then Offset(path[1..]) else 0
  }

  lemma OffsetAt(path: seq<Level>, k: nat)
    requires InRange(path) && 0 < k <= |path[0].chain|
    ensures OffsetOf(path, k) == OffsetOf(path, k - 1) + path[0].chain[k - 1].FrameSize()
    ensures Offset(path) == OffsetOf(path, path[0].at)
    ensures k < |path[0].chain| ==> Offset(path[0 := Level(path[0].chain, k)]) == OffsetOf(path, k)
  {
    assert path[0].chain[..k][..k - 1] == path[0].chain[..k - 1];
    assert path[0 := Level(path[0].chain, if k < |path[0].chain| then k else 0)][1..] == path[1..];
  }

  lemma FramesFront(chain: seq<Protocol>, k: nat)
    requires k < |chain|
    ensures Frames(chain[k..])[0] == chain[k].forCksum && Frames(chain[k..])[1..] == Frames(chain[k + 1..])
  {
    assert chain[k..][1..] == chain[k + 1..];
  }

  /** What the members from position `k` on add to the sum. */
  ghost function SumFrom(path: seq<Level>, k: nat): nat
    requires InRange(path) && k <= |path[0].chain|
    ensures k == |path[0].chain| ==> SumFrom(path, k) == 0
  {
    LaterSum(OffsetOf(path, k), Frames(path[0].chain[k..]))
  }

  /** What all members after the protocol itself add to the sum. */
  ghost function SumAfter(path: seq<Level>): nat
    requires InRange(path) && path[0].at + 1 < |path[0].chain|
  {
    LevelSum(OffsetOf(path, path[0].at + 1), Frames(path[0].chain[path[0].at + 1..]))
  }

  lemma SumAfterFirst(path: seq<Level>)
    requires InRange(path) && Sized(path) && path[0].at + 1 < |path[0].chain|
    ensures SumAfter(path)
         == Inv(Rfc1071(path[0].chain[path[0].at + 1].forCksum)) + SumFrom(path, path[0].at + 2)
  {
    FramesFront(path[0].chain, path[0].at + 1);
    OffsetAt(path, path[0].at + 2);
  }

  lemma LaterStep(path: seq<Level>, k: nat)
    requires InRange(path) && Sized(path) && k < |path[0].chain|
    ensures var at := path[0 := Level(path[0].chain, k)];
            SumFrom(path, k) == Inv(SwappedCksum(Here(at).forCksum, Offset(at))) + SumFrom(path, k + 1)
  {
    FramesFront(path[0].chain, k);
    OffsetAt(path, k + 1);
    assert path[0 := Level(path[0].chain, k)][1..] == path[1..];
  }

  /** The combined checksum of the levels after a protocol, from where they start. */
  ghost function CksumAfter(path: seq<Level>): u16
    requires InRange(path)
  {
    PayloadCksum(Offset(path) + Here(path).FrameSize(), Levels(path))
  }

  lemma NothingAfter(path: seq<Level>)
    requires InRange(path) && path[0].at + 1 == |path[0].chain|
    ensures CksumAfter(path) == 0xFFFF
  {
  }

  lemma LevelsParts(path: seq<Level>)
    requires InRange(path)
    ensures Levels(path)[0] == Frames(path[0].chain[path[0].at + 1..])
    ensures |path| > 1 ==> Levels(path)[1..] == Levels(path[1..])
  {
  }

  /** The checksum of the payload, from the sum over the chain and what the parent answers. */
  lemma Collected(path: seq<Level>)
    requires Nested(path) && Balanced(path) && Sized(path) && path[0].at + 1 < |path[0].chain|
    ensures |path| == 1 ==> CksumAfter(path) == Inv(Fold(SumAfter(path)))
    ensures |path| > 1 ==> CksumAfter(path) == Inv(Fold(SumAfter(path) + Inv(CksumAfter(path[1..]))))
  {
    hide PayloadCksum, LevelSum, Fold, Frames, SumSizes, Join, Inv, Offset, OffsetOf, Levels, Sized, Halves, Balanced;
    LevelsParts(path);
    var o, levels := Offset(path) + Here(path).FrameSize(), Levels(path);
    OffsetAfter(path);
    PayloadCksumStep(o, levels);
    if |path| > 1 {
      ParentStart(path);
    }
  }

  lemma SizedAbove(path: seq<Level>)
    requires Sized(path) && |path| > 1
    ensures Sized(path[1..])
  {
  }

  lemma OffsetAfter(path: seq<Level>)
    requires InRange(path)
    ensures OffsetOf(path, path[0].at + 1) == Offset(path) + Here(path).FrameSize()
  {
    OffsetAt(path, path[0].at + 1);
  }

  lemma {:induction false} JoinedSize(chain: seq<Protocol>)
    requires forall i :: 0 <= i < |chain| ==> |chain[i].forCksum| == chain[i].FrameSize()
    ensures |Join(Frames(chain))| == SumSizes(chain)
  {
    if chain != [] {
      JoinedSize(chain[1..]);
      SumFront(chain);
      assert Frames(chain)[1..] == Frames(chain[1..]);
    }
  }

  /** The payload of the parent starts where the chain under it ends. */
  lemma ParentStart(path: seq<Level>)
    requires Nested(path) && |path| > 1 && Balanced(path) && Sized(path)
    ensures Offset(path) + Here(path).FrameSize() + |Join(Levels(path)[0])|
         == Offset(path[1..]) + Here(path[1..]).FrameSize()
  {
    var (chain, at) := (path[0].chain, path[0].at);
    NestedAbove(path);
    HalvesSize(chain, Here(path[1..]));
    JoinedSize(chain[at + 1..]);
    SumSplit(chain, at);
    SumFront(chain[at..]);
    assert chain[at..][1..] == chain[at + 1..];
  }

  // ------- the pseudo header -------

  ghost function NearestIp(chain: seq<Protocol>, k: nat): Option<u16>
    requires k <= |chain|
  {
    if k == 0 then None
    else if chain[k - 1].pseudoCksum.Some? then chain[k - 1].pseudoCksum
    else NearestIp(chain, k - 1)
  }

  /** It is that of the last protocol before `k` that has one. */
  lemma {:induction false} NearestIpIs(chain: seq<Protocol>, k: nat)
    requires k <= |chain|
    ensures NearestIp(chain, k).None? ==> forall i :: 0 <= i < k ==> chain[i].pseudoCksum.None?
    ensures NearestIp(chain, k).Some? ==>
              exists j :: 0 <= j < k && chain[j].pseudoCksum == NearestIp(chain, k)
                && forall i :: j < i < k ==> chain[i].pseudoCksum.None?
  {
    if k > 0 { NearestIpIs(chain, k - 1); }
  }

  ghost function HeaderCksum(path: seq<Level>): u16
    requires InRange(path)
    decreases |path|
  {
    var ip := NearestIp(path[0].chain, path[0].at);
    if ip.Some? then
      Inv(Fold(Inv(ip.value) + (Here(path).FrameSize() + PayloadSize(path)) + Here(path).ipProtocolId))
    else if |path| > 1 then HeaderCksum(path[1..])
    else 0xFFFF
  }

  /** Lengths and numbers that do not overflow the 32-bit sum. */
  ghost predicate HeaderFits(path: seq<Level>)
    requires InRange(path)
    decreases |path|
  {
    && Here(path).FrameSize() + PayloadSize(path) + Here(path).ipProtocolId < 0xFFFF_0000
    && (|path| > 1 ==> HeaderFits(path[1..]))
  }
}
