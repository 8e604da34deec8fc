/**
 The packed headers as a receiver reads them: byte positions and values as in section 3.1 of
 RFC 791, section 3 of RFC 8200, RFC 792 and RFC 768.
 */
module Headers {
  import opened Unsigned
  import opened Bits
  import opened Bytes
  import opened FrameBuilder
  import opened Packing
  import opened Checksum
  import opened Combo
  import Ip4
  import Ip6
  import Icmp
  import Udp

  // ------- packed fields as one number -------

  /** The low bits of the fields, the first field highest. */
  function Number(fs: seq<Field>): nat
    requires AllEncoded(fs)
  {
    if fs == [] then 0
    else
      var f := fs[|fs| - 1];
      Number(fs[..|fs| - 1]) * Pow2(SizeOf(f)) + Low(FromBe(f.value), SizeOf(f))
  }

  lemma {:induction false} NumberBit(fs: seq<Field>, i: nat)
    requires AllEncoded(fs) && i < |Concat(fs)|
    ensures Bit(Number(fs), i) == Concat(fs)[|Concat(fs)| - 1 - i]
    decreases |fs|
  {
    hide Bit, BitAt, FromBe;
    var n := |fs| - 1;
    var f := fs[n];
    BitCat(Number(fs[..n]), Low(FromBe(f.value), SizeOf(f)), SizeOf(f), i);
    if i < SizeOf(f) {
      BitLow(FromBe(f.value), SizeOf(f), i);
      BitFromBe(f.value, i);
    } else {
      NumberBit(fs[..n], i - SizeOf(f));
    }
  }

  lemma {:induction false} NumberBound(fs: seq<Field>)
    requires AllEncoded(fs)
    ensures Number(fs) < Pow2(|Concat(fs)|)
  {
    hide FromBe, Low;
    if fs != [] {
      var n := |fs| - 1;
      NumberBound(fs[..n]);
      Pow2Sum(|Concat(fs[..n])|, SizeOf(fs[n]));
      Below(Number(fs[..n]), Pow2(|Concat(fs[..n])|), Pow2(SizeOf(fs[n])), Low(FromBe(fs[n].value), SizeOf(fs[n])));
    }
  }

  lemma Below(a: nat, b: nat, p: nat, r: nat)
    requires a < b && r < p
    ensures a * p + r < b * p
  {
    MulMonotone(a + 1, b, p);
    assert (a + 1) * p == a * p + p;
  }

  /** Whole bytes of fields are their number, most significant byte first. */
  lemma PackedNumber(fs: seq<Field>)
    requires AllEncoded(fs) && LayoutOk(Sizes(fs)) && TotalBits(Sizes(fs)) % 8 == 0
    ensures 8 * |Packed(fs).proto| == TotalBits(Sizes(fs)) && FromBe(Packed(fs).proto) == Number(fs)
  {
    hide Bit, BitAt, FromBe, Number, Packed, TotalBits, LayoutOk, Concat;
    var p := Packed(fs).proto;
    PackedRepresents(fs);
    NumberBound(fs);
    FromBeBound(p);
    forall i | 0 <= i < 8 * |p| ensures Bit(FromBe(p), i) == Bit(Number(fs), i) {
      BitFromBe(p, i);
      NumberBit(fs, i);
    }
    SameBits(FromBe(p), Number(fs), 8 * |p|);
  }

  // ------- pieces of a header -------

  /** These fields are whole bytes together, and pack to `s`. */
  ghost predicate Packs(fs: seq<Field>, s: seq<byte>) {
    AllEncoded(fs) && TotalBits(Sizes(fs)) % 8 == 0 && Packed(fs).proto == s
  }

  lemma Then(a: seq<Field>, s: seq<byte>, b: seq<Field>, t: seq<byte>)
    requires Packs(a, s) && Packs(b, t)
    ensures Packs(a + b, s + t)
  {
    hide Packed, TotalBits, Sizes, SizeOf, Encoded;
    ComboPacks(a, b);
    BitsJoined(a, b);
  }

  /** A field of whole bytes. */
  lemma Whole(f: Field)
    requires f.isFrame && f.bits == 8 * |f.value|
    ensures Packs([f], f.value)
  {
    assert [f][..0] == [];
    assert Packed([f]) == PackField(Packed([]), f);
    assert Sizes([f])[..0] == [];
    if f.value != [] { assert Packed([f]).proto == [] + f.value; }
  }

  lemma Absent(f: Field)
    requires !f.isFrame
    ensures Packs([f], [])
  {
    assert [f][..0] == [];
    assert Packed([f]) == PackField(Packed([]), f);
    assert Sizes([f])[..0] == [];
  }

  lemma NumberTwo(f: Field, g: Field)
    requires Encoded(f) && Encoded(g)
    ensures Number([f, g])
         == Low(FromBe(f.value), SizeOf(f)) * Pow2(SizeOf(g)) + Low(FromBe(g.value), SizeOf(g))
  {
    hide FromBe, Pow2, Low;
    assert [f, g][..1] == [f] && [f][..0] == [];
    assert Number([f]) == 0 * Pow2(SizeOf(f)) + Low(FromBe(f.value), SizeOf(f));
  }

  lemma TwoLaid(a: nat, b: nat)
    requires 0 < a < 8 && b % 8 != 0 && a + b % 8 <= 8
    ensures Laid([a, b], a + b)
  {
    hide Laid;
    NothingLaid();
    Lay([], 0, a, [a]);
    Lay([a], a, b, [a, b]);
  }

  /** Two fields that share bytes. */
  lemma Shared(f: Field, g: Field, s: seq<byte>)
    requires Encoded(f) && Encoded(g) && f.isFrame && g.isFrame && 0 < f.bits < 8
    requires g.bits % 8 != 0 && f.bits + g.bits == 8 * |s| && f.bits + g.bits % 8 <= 8
    requires FromBe(s) == Low(FromBe(f.value), f.bits) * Pow2(g.bits) + Low(FromBe(g.value), g.bits)
    ensures Packs([f, g], s)
  {
    hide Laid, FromBe, Pow2, Low, Packed, Number;
    TwoLaid(f.bits, g.bits);
    NumberTwo(f, g);
    SharedIs(f, g, s);
  }

  lemma TwoSizes(f: Field, g: Field)
    requires f.isFrame && g.isFrame
    ensures Sizes([f, g]) == [f.bits, g.bits]
  {
  }

  lemma SameNumber(s: seq<byte>, t: seq<byte>)
    requires |s| == |t| && FromBe(s) == FromBe(t)
    ensures s == t
  {
    hide FromBe, ToBe;
    ToFromBe(s);
    ToFromBe(t);
  }

  lemma SharedIs(f: Field, g: Field, s: seq<byte>)
    requires Encoded(f) && Encoded(g) && f.isFrame && g.isFrame
    requires Laid([f.bits, g.bits], f.bits + g.bits) && f.bits + g.bits == 8 * |s|
    requires FromBe(s) == Number([f, g])
    ensures Packs([f, g], s)
  {
    hide FromBe, Packed, Number, LayoutOk, TotalBits, Encoded, Sizes, SizeOf;
    TwoSizes(f, g);
    PackedNumber([f, g]);
    SameNumber(s, Packed([f, g]).proto);
  }

  // ------- IPv4 -------

  /** Section 3.1 of RFC 791. */
  function Ip4Bytes(d: Ip4.Config, i: nat, rnd: (uint32, uint32), payloadSize: nat, payloadId: nat,
      cksum: u16): seq<byte>
    requires Ip4.Stepping(d)
  {
    var version := if d.isOverrideVer then d.verHdrlen / 16 % 16 else 4;
    var words := (if d.isOverrideHdrlen then d.verHdrlen else 5 + |d.options| / 4) % 16;
    var length := if d.isOverrideTotlen then d.totlen else payloadSize + 20 + |d.options|;
    var protocol := (if d.isOverrideProto then d.proto else payloadId) % 0x100;
    [16 * version + words] + [d.tos % 0x100] + ToBe(length, 2) + ToBe(d.id, 2)
    + ToBe(d.flags % 8 * 0x2000 + d.fragOfs % 0x2000, 2) + [d.ttl % 0x100] + [protocol]
    + ToBe(cksum, 2) + ToBe(Ip4.StepAddress(d.src, i, rnd.0), 4) + ToBe(Ip4.StepAddress(d.dst, i, rnd.1), 4)
    + d.options
  }

  lemma OneByte(x: nat)
    ensures ToBe(x, 1) == [x % 0x100] && FromBe([x % 0x100]) == x % 0x100
  {
    assert ToBe(x, 1) == ToBe(x / 0x100, 0) + [x % 0x100];
    assert FromBe([x % 0x100]) == FromBe([]) * 0x100 + x % 0x100;
  }

  lemma LowOfLow(x: nat, m: nat, n: nat)
    requires n <= m
    ensures Low(Low(x, m), n) == Low(x, n)
  {
    forall k | 0 <= k < n ensures Bit(Low(Low(x, m), n), k) == Bit(Low(x, n), k) {
      BitLow(Low(x, m), n, k);
      BitLow(x, m, k);
      BitLow(x, n, k);
    }
    SameBits(Low(Low(x, m), n), Low(x, n), n);
  }

  lemma VersionByte(v: byte, h: byte)
    requires v < 16 && h < 16
    ensures Packs([Field(true, false, 4, [v]), Field(true, false, 4, [h])], [16 * v + h])
  {
    Single(v);
    Single(h);
    Single(16 * v + h);
    Nibbles(v, h);
    hide Packs, FromBe, Low, Pow2;
    Shared(Field(true, false, 4, [v]), Field(true, false, 4, [h]), [16 * v + h]);
  }

  lemma Single(b: byte)
    ensures FromBe([b]) == b
  {
    assert FromBe([b]) == FromBe([]) * 0x100 + b;
  }

  lemma Nibbles(v: nat, h: nat)
    requires v < 16 && h < 16
    ensures Low(v, 4) * Pow2(4) + Low(h, 4) == 16 * v + h
  {
    assert Pow2(4) == 16;
  }

  lemma FlagsWord(flags: nat, frag: nat)
    ensures Packs([Field(true, false, 3, ToBe(flags, 1)), Field(true, false, 13, ToBe(frag, 2))],
                  ToBe(flags % 8 * 0x2000 + frag % 0x2000, 2))
  {
    var word := flags % 8 * 0x2000 + frag % 0x2000;
    FlagParts(flags, frag);
    hide Packs, FromBe, ToBe, Pow2, Low;
    Shared(Field(true, false, 3, ToBe(flags, 1)), Field(true, false, 13, ToBe(frag, 2)), ToBe(word, 2));
  }

  lemma FlagParts(flags: nat, frag: nat)
    ensures FromBe(ToBe(flags % 8 * 0x2000 + frag % 0x2000, 2))
         == Low(FromBe(ToBe(flags, 1)), 3) * Pow2(13) + Low(FromBe(ToBe(frag, 2)), 13)
  {
    hide FromBe, ToBe;
    FromToBe(flags % 8 * 0x2000 + frag % 0x2000, 2);
    FromToBe(flags, 1);
    FromToBe(frag, 2);
    LowOfLow(flags, 8, 3);
    LowOfLow(frag, 16, 13);
    Pow2Values();
    assert Pow2(3) == 8;
    Pow2Sum(3, 8);
    Pow2Sum(11, 2);
    assert Pow2(2) == 4;
  }

  /** The packed header is the one of RFC 791, field by field. */
  lemma Ip4Packed(d: Ip4.Config, i: nat, rnd: (uint32, uint32), payloadSize: nat, payloadId: nat, cksum: u16)
    requires Ip4.Stepping(d)
    ensures Packs(Ip4.Fields(d, i, rnd, payloadSize, payloadId, cksum), Ip4Bytes(d, i, rnd, payloadSize, payloadId,
        cksum))
  {
    hide Packs, ToBe, Ip4.StepAddress;
    var fs := Ip4.Fields(d, i, rnd, payloadSize, payloadId, cksum);
    var (ver, hdr) := (Ip4.Ver(d), Ip4.HdrLen(d));
    VersionByte(ver, hdr);
    OneByte(d.tos);
    OneByte(d.ttl);
    FlagsWord(d.flags, d.fragOfs);
    var a := [fs[0], fs[1]];
    var s: seq<byte> := [16 * ver + hdr];
    a, s := Put(a, s, fs[2]);
    a, s := Put(a, s, fs[3]);
    a, s := Put(a, s, fs[4]);
    Then(a, s, [fs[5], fs[6]], ToBe(d.flags % 8 * 0x2000 + d.fragOfs % 0x2000, 2));
    a, s := a + [fs[5], fs[6]], s + ToBe(d.flags % 8 * 0x2000 + d.fragOfs % 0x2000, 2);
    a, s := Put(a, s, fs[7]);
    a, s := Put(a, s, fs[8]);
    a, s := Put(a, s, fs[9]);
    a, s := Put(a, s, fs[10]);
    a, s := Put(a, s, fs[11]);
    a, s := Put(a, s, fs[12]);
    assert a == fs;
  }

  lemma Put(a: seq<Field>, s: seq<byte>, f: Field) returns (b: seq<Field>, t: seq<byte>)
    requires Packs(a, s) && f.isFrame && f.bits == 8 * |f.value|
    ensures b == a + [f] && t == s + f.value && Packs(b, t)
  {
    hide Packs;
    b, t := a + [f], s + f.value;
    Whole(f);
    Then(a, s, [f], f.value);
  }

  lemma Ip4Places(d: Ip4.Config, i: nat, rnd: (uint32, uint32), payloadSize: nat, payloadId: nat, cksum: u16)
    requires Ip4.Stepping(d)
    ensures var s := Ip4Bytes(d, i, rnd, payloadSize, payloadId, cksum);
            && |s| == 20 + |d.options|
            && s[0] == 16 * (if d.isOverrideVer then d.verHdrlen / 16 % 16 else 4)
                       + (if d.isOverrideHdrlen then d.verHdrlen else 5 + |d.options| / 4) % 16
            && s[2..4] == ToBe(if d.isOverrideTotlen then d.totlen else payloadSize + 20 + |d.options|, 2)
            && s[9] == (if d.isOverrideProto then d.proto else payloadId) % 0x100
            && s[12..16] == ToBe(Ip4.StepAddress(d.src, i, rnd.0), 4)
            && s[16..20] == ToBe(Ip4.StepAddress(d.dst, i, rnd.1), 4)
  {
    hide ToBe, Ip4.StepAddress;
  }

  /** What a receiver reads off the packed header: version, header length, total length, protocol
      and addresses, each computed unless the user overrides it. */
  lemma Ip4Read(d: Ip4.Config, i: nat, rnd: (uint32, uint32), payloadSize: nat, payloadId: nat, cksum: u16)
    requires Ip4.Stepping(d)
    ensures AllEncoded(Ip4.Fields(d, i, rnd, payloadSize, payloadId, cksum))
    ensures var p := Packed(Ip4.Fields(d, i, rnd, payloadSize, payloadId, cksum)).proto;
            && |p| == 20 + |d.options|
            && p[0] / 16 == (if d.isOverrideVer then d.verHdrlen / 16 % 16 else 4)
            && p[0] % 16 == (if d.isOverrideHdrlen then d.verHdrlen % 16 else (5 + |d.options| / 4) % 16)
            && FromBe(p[2..4])
               == (if d.isOverrideTotlen then d.totlen else payloadSize + 20 + |d.options|) % 0x1_0000
            && p[9] == (if d.isOverrideProto then d.proto else payloadId) % 0x100
            && (d.src.mode == Ip4.FixedHost ==> FromBe(p[12..16]) == d.src.ip)
            && (d.dst.mode == Ip4.FixedHost ==> FromBe(p[16..20]) == d.dst.ip)
  {
    hide Packed, FromBe, ToBe, Pow2, Ip4.Fields, Ip4.SteppedHost, Ip4.AndWord, Ip4.OrWord, Ip4.NotWord;
    Ip4Packed(d, i, rnd, payloadSize, payloadId, cksum);
    Ip4Places(d, i, rnd, payloadSize, payloadId, cksum);
    FromToBe(if d.isOverrideTotlen then d.totlen else payloadSize + 20 + |d.options|, 2);
    WordBack(Ip4.StepAddress(d.src, i, rnd.0));
    WordBack(Ip4.StepAddress(d.dst, i, rnd.1));
    Pow2Values();
  }

  /** The total length field tells the length of header and payload exactly while that fits it. */
  lemma Ip4LengthIff(d: Ip4.Config, i: nat, rnd: (uint32, uint32), payloadSize: nat, payloadId: nat, cksum: u16)
    requires Ip4.Stepping(d) && !d.isOverrideTotlen
    ensures var fs := Ip4.Fields(d, i, rnd, payloadSize, payloadId, cksum);
            && AllEncoded(fs) && |Packed(fs).proto| == 20 + |d.options|
            && (FromBe(Packed(fs).proto[2..4]) == |Packed(fs).proto| + payloadSize
                <==> payloadSize + 20 + |d.options| < 0x1_0000)
  {
    hide Packed, FromBe, Ip4.StepAddress, Ip4.Fields;
    Ip4Read(d, i, rnd, payloadSize, payloadId, cksum);
  }

  /** The header length in the first byte tells, in words, the length of the packed header exactly
      when the options are whole words, ten at most. */
  lemma Ip4HeaderLengthIff(d: Ip4.Config, i: nat, rnd: (uint32, uint32), payloadSize: nat, payloadId: nat, cksum: u16)
    requires Ip4.Stepping(d) && !d.isOverrideHdrlen
    ensures var fs := Ip4.Fields(d, i, rnd, payloadSize, payloadId, cksum);
            && AllEncoded(fs) && |Packed(fs).proto| == 20 + |d.options|
            && (4 * (Packed(fs).proto[0] % 16) == |Packed(fs).proto| <==> |d.options| % 4 == 0 && |d.options| <= 40)
  {
    hide Packed, FromBe, Ip4.StepAddress, Ip4.Fields;
    Ip4Read(d, i, rnd, payloadSize, payloadId, cksum);
  }

  // ------- ICMP and UDP -------

  /** RFC 792 and RFC 4443: type, code, checksum and, for some types, identifier and sequence
      number. */
  lemma IcmpPacked(d: Icmp.Config, cksum: u16)
    ensures Packs(Icmp.Fields(d, cksum),
                  [d.kind % 0x100] + [d.code % 0x100] + ToBe(cksum, 2)
                  + if d.kind % 0x100 in (if d.version == Icmp.Icmp4 then {0, 8, 15, 16} else {128, 129})
                    then ToBe(d.identifier, 2) + ToBe(d.sequence, 2) else [])
  {
    hide Packs, ToBe;
    var fs := Icmp.Fields(d, cksum);
    OneByte(d.kind);
    OneByte(d.code);
    Whole(fs[0]);
    var (a, s) := ([fs[0]], fs[0].value);
    a, s := Put(a, s, fs[1]);
    a, s := Put(a, s, fs[2]);
    if Icmp.HasIdSeq(d) {
      a, s := Put(a, s, fs[3]);
      a, s := Put(a, s, fs[4]);
      assert s == [d.kind % 0x100] + [d.code % 0x100] + ToBe(cksum, 2) + (ToBe(d.identifier, 2) + ToBe(d.sequence, 2));
    } else {
      Absent(fs[3]);
      Absent(fs[4]);
      Then(a, s, [fs[3]], []);
      Then(a + [fs[3]], s + [], [fs[4]], []);
      a, s := a + [fs[3]] + [fs[4]], s + [] + [];
      assert s == [d.kind % 0x100] + [d.code % 0x100] + ToBe(cksum, 2) + [];
    }
    assert a == fs;
  }

  lemma LowBytes(x: nat)
    ensures ToBe(x % 0x1_0000, 2) == ToBe(x, 2)
  {
    hide ToBe, FromBe, Pow2;
    FromToBe(x, 2);
    FromToBe(x % 0x1_0000, 2);
    Pow2Values();
    SameNumber(ToBe(x % 0x1_0000, 2), ToBe(x, 2));
  }

  /** RFC 768: ports, length and checksum, each computed unless the user overrides it, and a
      computed checksum of zero sent as all ones. */
  lemma UdpConfigured(c: Udp.Config, payloadSize: nat, payloadId: nat, computed: u16)
    ensures var d := Udp.PortsOf(c, payloadSize, payloadId);
            Packs(Udp.Fields(d.src, d.dst, d.totLen, Udp.CksumOf(c, computed)),
                  ToBe(if c.isOverrideSrcPort then c.srcPort else payloadId, 2)
                  + ToBe(if c.isOverrideDstPort then c.dstPort else payloadId, 2)
                  + ToBe(if c.isOverrideTotlen then c.totlen else payloadSize + 8, 2)
                  + ToBe(if c.isOverrideCksum then c.cksum else if computed == 0 then 0xFFFF else computed, 2))
  {
    hide Packs, ToBe;
    var d := Udp.PortsOf(c, payloadSize, payloadId);
    LowBytes(if c.isOverrideSrcPort then c.srcPort else payloadId);
    LowBytes(if c.isOverrideDstPort then c.dstPort else payloadId);
    LowBytes(c.cksum);
    UdpPacked(d.src, d.dst, d.totLen, Udp.CksumOf(c, computed));
  }

  /** The fields are packed one after the other. */
  lemma UdpPacked(srcPort: u16, dstPort: u16, totLen: nat, cksum: u16)
    ensures Packs(Udp.Fields(srcPort, dstPort, totLen, cksum),
                  ToBe(srcPort, 2) + ToBe(dstPort, 2) + ToBe(totLen, 2) + ToBe(cksum, 2))
  {
    hide Packs, ToBe;
    var fs := Udp.Fields(srcPort, dstPort, totLen, cksum);
    Whole(fs[0]);
    var (a, s) := ([fs[0]], fs[0].value);
    a, s := Put(a, s, fs[1]);
    a, s := Put(a, s, fs[2]);
    a, s := Put(a, s, fs[3]);
    assert a == fs;
  }

  // ------- IPv6 -------

  /** The first word: version, traffic class and flow label. */
  lemma FirstWord(v: byte, tc: nat, flow: nat)
    requires v < 16 && flow < 0x10_0000
    ensures Packs([Field(true, false, 4, [v]), Field(true, false, 8, ToBe(tc, 1)), Field(true, false, 20, ToBe(flow,
        3))],
                  ToBe(v * 0x1000_0000 + tc % 0x100 * 0x10_0000 + flow, 4))
  {
    hide Packed, FromBe, ToBe, Number, LayoutOk, TotalBits;
    var fs := [Field(true, false, 4, [v]), Field(true, false, 8, ToBe(tc, 1)), Field(true, false, 20, ToBe(flow, 3))];
    var word := v * 0x1000_0000 + tc % 0x100 * 0x10_0000 + flow;
    assert Sizes(fs) == [4, 8, 20];
    Ip6FirstLaid();
    FirstNumber(v, tc, flow);
    WordBack(word);
    PackedNumber(fs);
    ToFromBe(Packed(fs).proto);
  }

  lemma WordBack(x: uint32)
    ensures FromBe(ToBe(x, 4)) == x
  {
    hide FromBe, ToBe, Pow2;
    Pow2Values();
    FromToBe(x, 4);
  }

  lemma Ip6FirstLaid()
    ensures LayoutOk([4, 8, 20]) && TotalBits([4, 8, 20]) == 32
  {
    NothingLaid();
    Lay([], 0, 4, [4]);
    Lay([4], 4, 8, [4, 8]);
    Lay([4, 8], 12, 20, [4, 8, 20]);
  }

  lemma FirstNumber(v: byte, tc: nat, flow: nat)
    requires v < 16 && flow < 0x10_0000
    ensures Number([Field(true, false, 4, [v]), Field(true, false, 8, ToBe(tc, 1)), Field(true, false, 20,
        ToBe(flow, 3))])
         == v * 0x1000_0000 + tc % 0x100 * 0x10_0000 + flow
  {
    hide FromBe, ToBe, Pow2, Low;
    var (f, g, h) := (Field(true, false, 4, [v]), Field(true, false, 8, ToBe(tc, 1)), Field(true, false, 20,
        ToBe(flow, 3)));
    OneByte(v);
    FromToBe(tc, 1);
    FromToBe(flow, 3);
    NumberTwo(f, g);
    NumberThree(f, g, h);
    hide Number;
    FirstValues(v, tc, flow);
    SmallPowers();
    ThreeParts(v, tc % 0x100, Pow2(8), Pow2(20));
  }

  lemma NumberThree(f: Field, g: Field, h: Field)
    requires Encoded(f) && Encoded(g) && Encoded(h)
    ensures Number([f, g, h]) == Number([f, g]) * Pow2(SizeOf(h)) + Low(FromBe(h.value), SizeOf(h))
  {
    hide FromBe, Pow2, Low;
    assert [f, g, h][..2] == [f, g];
  }

  lemma ThreeParts(v: nat, t: nat, p: nat, q: nat)
    requires p == 0x100 && q == 0x10_0000
    ensures (v * p + t) * q == v * 0x1000_0000 + t * 0x10_0000
  {
  }

  lemma SmallPowers()
    ensures Pow2(4) == 16 && Pow2(8) == 0x100 && Pow2(20) == 0x10_0000 && Pow2(24) == 0x100_0000
  {
    Pow2Values();
    assert Pow2(4) == 16;
    Pow2Sum(16, 4);
  }

  lemma FirstValues(v: byte, tc: nat, flow: nat)
    requires v < 16 && flow < 0x10_0000
    ensures Low(v, 4) == v && Low(Low(tc, 8), 8) == tc % 0x100 && Low(Low(flow, 24), 20) == flow
  {
    SmallPowers();
    hide Pow2;
  }

  /** Section 3 of RFC 8200. */
  function Ip6Bytes(d: Ip6.Config, payloadSize: nat, payloadId: nat, noNext: bool, src: Ip6.Address,
      dst: Ip6.Address): seq<byte> {
    var version := if d.isOverrideVersion then d.version % 16 else 6;
    var length := if d.isOverridePayloadLength then d.payloadLength else payloadSize;
    var next := if d.isOverrideNextHeader then d.nextHeader
                else if payloadId % 0x100 == 0 && noNext then 59 else payloadId;
    ToBe(version * 0x1000_0000 + d.trafficClass % 0x100 * 0x10_0000 + d.flowLabel % 0x10_0000, 4)
    + ToBe(length, 2) + [next % 0x100] + [d.hopLimit % 0x100] + src + dst
  }

  lemma Ip6Packed(d: Ip6.Config, payloadSize: nat, payloadId: nat, noNext: bool, src: Ip6.Address, dst: Ip6.Address)
    ensures Packs(Ip6.Fields(d, payloadSize, payloadId, noNext, src, dst),
                  Ip6Bytes(d, payloadSize, payloadId, noNext, src, dst))
  {
    hide Packs, ToBe;
    var fs := Ip6.Fields(d, payloadSize, payloadId, noNext, src, dst);
    var version: byte := if d.isOverrideVersion then d.version % 16 else 6;
    FirstWord(version, d.trafficClass, d.flowLabel % 0x10_0000);
    OneByte(Ip6.NextHeader(d, payloadId, noNext));
    OneByte(d.hopLimit);
    var a := [fs[0], fs[1], fs[2]];
    var s := ToBe(version * 0x1000_0000 + d.trafficClass % 0x100 * 0x10_0000 + d.flowLabel % 0x10_0000, 4);
    a, s := Put(a, s, fs[3]);
    a, s := Put(a, s, fs[4]);
    a, s := Put(a, s, fs[5]);
    a, s := Put(a, s, fs[6]);
    a, s := Put(a, s, fs[7]);
    assert a == fs;
  }
}
