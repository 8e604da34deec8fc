/**
 The IPv4 header: its fields, the stepping of its addresses from frame to frame, and the
 layout the packer sees.
 */
module Ip4 {
  import opened Unsigned
  import opened Bits
  import opened Bytes
  import opened FrameBuilder
  import opened Packing
  import opened CksumField

  // ------- addresses -------

  datatype AddressMode = FixedHost | IncHost | DecHost | RandomHost

  datatype Address = Address(ip: uint32, mask: uint32, mode: AddressMode, count: uint32)

  function AndWord(a: uint32, b: uint32): uint32 {
    AndBound(a, b);
    And(a, b)
  }

  function OrWord(a: uint32, b: uint32): uint32 {
    Pow2Values();
    OrBound(a, b, 32);
    Or(a, b)
  }

  function NotWord(a: uint32): uint32 {
    Pow2Values();
    Not(a, 32)
  }

  /** The address in frame `i`; `rnd` is the next random number. */
  function StepAddress(a: Address, i: nat, rnd: uint32): uint32
    requires a.mode != FixedHost ==> a.count > 0
  {
    if a.mode == FixedHost then a.ip
    else OrWord(AndWord(a.ip, a.mask), AndWord(SteppedHost(a, i, rnd), NotWord(a.mask)))
  }

  /** The host number before it is masked, in 32-bit unsigned arithmetic. */
  function SteppedHost(a: Address, i: nat, rnd: uint32): uint32
    requires a.mode != FixedHost && a.count > 0
  {
    var host, u := AndWord(a.ip, NotWord(a.mask)), i % a.count;
    match a.mode
    case IncHost => (host + u) % 0x1_0000_0000
    case DecHost => (host + 0x1_0000_0000 - u) % 0x1_0000_0000
    case _ => rnd
  }

  // ------- fields -------

  /** What a user has set; an override replaces a computed value. */
  datatype Config = Config(
    isOverrideVer: bool, isOverrideHdrlen: bool, verHdrlen: uint32,
    tos: uint32, isOverrideTotlen: bool, totlen: uint32,
    id: uint32, flags: uint32, fragOfs: uint32, ttl: uint32,
    isOverrideProto: bool, proto: uint32, isOverrideCksum: bool, cksum: uint32,
    src: Address, dst: Address, options: seq<byte>)

  predicate Stepping(d: Config) {
    && (d.src.mode != FixedHost ==> d.src.count > 0)
    && (d.dst.mode != FixedHost ==> d.dst.count > 0)
  }

  function Ver(d: Config): byte { if d.isOverrideVer then d.verHdrlen / 16 % 16 else 4 }

  function HdrLen(d: Config): byte {
    (if d.isOverrideHdrlen then d.verHdrlen else 5 + |d.options| / 4) % 16
  }

  function TotLen(d: Config, payloadSize: nat): nat {
    if d.isOverrideTotlen then d.totlen else payloadSize + 20 + |d.options|
  }

  function ProtocolId(d: Config, payloadId: nat): byte {
    (if d.isOverrideProto then d.proto else payloadId) % 0x100
  }

  const CKSUM := 9

  /** The fields of frame `i` with `cksum` in the checksum field.  The sizes and numbers of
      the payload and the random numbers are given. */
  function Fields(d: Config, i: nat, rnd: (uint32, uint32), payloadSize: nat, payloadId: nat,
      cksum: nat): (fs: seq<Field>)
    requires Stepping(d)
    ensures |fs| == 13 && fs[CKSUM].value == ToBe(cksum, 2)
  {
    [ Field(true, false, 4, [Ver(d)]),
      Field(true, false, 4, [HdrLen(d)]),
      Field(true, false, 8, ToBe(d.tos, 1)),
      Field(true, false, 16, ToBe(TotLen(d, payloadSize), 2)),
      Field(true, false, 16, ToBe(d.id, 2)),
      Field(true, false, 3, ToBe(d.flags, 1)),
      Field(true, false, 13, ToBe(d.fragOfs, 2)),
      Field(true, false, 8, ToBe(d.ttl, 1)),
      Field(true, false, 8, [ProtocolId(d, payloadId)]),
      Field(true, true, 16, ToBe(cksum, 2)),
      Field(true, false, 32, ToBe(StepAddress(d.src, i, rnd.0), 4)),
      Field(true, false, 32, ToBe(StepAddress(d.dst, i, rnd.1), 4)),
      Field(true, false, 8 * |d.options|, d.options)
    ]
  }

  function Layout(options: nat): seq<nat> { [4, 4, 8, 16, 16, 3, 13, 8, 8, 16, 32, 32, 8 * options] }

  lemma VersionToFlags()
    ensures Laid([4, 4, 8, 16, 16, 3], 51)
  {
    hide Laid;
    NothingLaid();
    Lay([], 0, 4, [4]);
    Lay([4], 4, 4, [4, 4]);
    Lay([4, 4], 8, 8, [4, 4, 8]);
    Lay([4, 4, 8], 16, 16, [4, 4, 8, 16]);
    Lay([4, 4, 8, 16], 32, 16, [4, 4, 8, 16, 16]);
    Lay([4, 4, 8, 16, 16], 48, 3, [4, 4, 8, 16, 16, 3]);
  }

  lemma VersionToProtocol()
    ensures Laid([4, 4, 8, 16, 16, 3, 13, 8, 8], 80)
  {
    hide Laid;
    VersionToFlags();
    Lay([4, 4, 8, 16, 16, 3], 51, 13, [4, 4, 8, 16, 16, 3, 13]);
    Lay([4, 4, 8, 16, 16, 3, 13], 64, 8, [4, 4, 8, 16, 16, 3, 13, 8]);
    Lay([4, 4, 8, 16, 16, 3, 13, 8], 72, 8, [4, 4, 8, 16, 16, 3, 13, 8, 8]);
  }

  /** The whole IPv4 layout packs exactly, whatever the options. */
  lemma LayoutPacks(options: nat)
    ensures Laid(Layout(options), 160 + 8 * options)
    ensures Layout(options)[..CKSUM] == [4, 4, 8, 16, 16, 3, 13, 8, 8]
    ensures Laid(Layout(options)[..CKSUM], 80)
  {
    hide Laid;
    VersionToProtocol();
    var s := Layout(options);
    assert s[..9] == [4, 4, 8, 16, 16, 3, 13, 8, 8];
    Lay(s[..9], 80, 16, s[..10]);
    Lay(s[..10], 96, 32, s[..11]);
    Lay(s[..11], 128, 32, s[..12]);
    Lay(s[..12], 160, 8 * options, s);
  }

  lemma FieldsLaidOut(d: Config, i: nat, rnd: (uint32, uint32), payloadSize: nat, payloadId: nat, cksum: nat)
    requires Stepping(d)
    ensures var fs := Fields(d, i, rnd, payloadSize, payloadId, cksum);
            && AllEncoded(fs) && Sizes(fs) == Layout(|d.options|) && LayoutOk(Sizes(fs))
            && HasCksum(fs, CKSUM) && CksumAt(fs, CKSUM) == 10
            && TotalBits(Sizes(fs)) == 160 + 8 * |d.options|
  {
    hide LayoutOk, TotalBits, StepAddress;
    LayoutPacks(|d.options|);
    assert Sizes(Fields(d, i, rnd, payloadSize, payloadId, cksum)) == Layout(|d.options|);
  }
}
