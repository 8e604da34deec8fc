/** The IPv6 header: its fields, and where its addresses are. */
module Ip6 {
  import opened Unsigned
  import opened Bytes
  import opened FrameBuilder
  import opened Packing
  import opened Combo

  /** What a user has set, with the addresses of the frame. */
  datatype Config = Config(
    isOverrideVersion: bool, version: uint32, trafficClass: uint32, flowLabel: uint32,
    isOverridePayloadLength: bool, payloadLength: uint32,
    isOverrideNextHeader: bool, nextHeader: uint32, hopLimit: uint32)

  type Address = s: seq<byte> | |s| == 16 witness seq(16, _ => 0)

  /** A next header of zero before a payload that is no IP protocol reads "none". */
  function NextHeader(d: Config, payloadId: nat, noNext: bool): nat {
    if d.isOverrideNextHeader then d.nextHeader
    else if payloadId % 0x100 == 0 && noNext then 0x3B
    else payloadId
  }

  function FirstFields(d: Config, payloadSize: nat, payloadId: nat, noNext: bool): seq<Field> {
    [ Field(true, false, 4, [if d.isOverrideVersion then d.version % 16 else 6]),
      Field(true, false, 8, ToBe(d.trafficClass, 1)),
      Field(true, false, 20, ToBe(d.flowLabel % 0x10_0000, 3)),
      Field(true, false, 16, ToBe(if d.isOverridePayloadLength then d.payloadLength else payloadSize, 2)),
      Field(true, false, 8, ToBe(NextHeader(d, payloadId, noNext), 1)),
      Field(true, false, 8, ToBe(d.hopLimit, 1))
    ]
  }

  function AddressFields(src: Address, dst: Address): seq<Field> {
    [Field(true, false, 128, src), Field(true, false, 128, dst)]
  }

  function Fields(d: Config, payloadSize: nat, payloadId: nat, noNext: bool, src: Address, dst: Address): seq<Field> {
    FirstFields(d, payloadSize, payloadId, noNext) + AddressFields(src, dst)
  }

  lemma FirstLaid()
    ensures Laid([4, 8, 20, 16, 8, 8], 64)
  {
    hide Laid;
    NothingLaid();
    Lay([], 0, 4, [4]);
    Lay([4], 4, 8, [4, 8]);
    Lay([4, 8], 12, 20, [4, 8, 20]);
    Lay([4, 8, 20], 32, 16, [4, 8, 20, 16]);
    Lay([4, 8, 20, 16], 48, 8, [4, 8, 20, 16, 8]);
    Lay([4, 8, 20, 16, 8], 56, 8, [4, 8, 20, 16, 8, 8]);
  }

  /** The whole IPv6 layout packs exactly. */
  lemma LayoutPacks()
    ensures Laid([4, 8, 20, 16, 8, 8, 128, 128], 320)
  {
    hide Laid;
    FirstLaid();
    Lay([4, 8, 20, 16, 8, 8], 64, 128, [4, 8, 20, 16, 8, 8, 128]);
    Lay([4, 8, 20, 16, 8, 8, 128], 192, 128, [4, 8, 20, 16, 8, 8, 128, 128]);
  }

  lemma FirstFieldsLaidOut(d: Config, payloadSize: nat, payloadId: nat, noNext: bool)
    ensures var fs := FirstFields(d, payloadSize, payloadId, noNext);
            AllEncoded(fs) && LayoutOk(Sizes(fs)) && TotalBits(Sizes(fs)) == 64
  {
    FirstLaid();
    hide LayoutOk, TotalBits;
    assert Sizes(FirstFields(d, payloadSize, payloadId, noNext)) == [4, 8, 20, 16, 8, 8];
  }

  lemma AddressesPacked(src: Address, dst: Address)
    ensures AllEncoded(AddressFields(src, dst)) && Packed(AddressFields(src, dst)).proto == src + dst
  {
    var f, g := Field(true, false, 128, src), Field(true, false, 128, dst);
    assert [f, g][..1] == [f] && [f][..0] == [];
    assert Packed([f]) == PackField(Packed([]), f);
    assert Packed([f]).proto == [] + src;
    assert [] + src == src;
  }

  /** The header is 40 bytes, the last 32 of them the addresses. */
  lemma AddressesAtEnd(d: Config, payloadSize: nat, payloadId: nat, noNext: bool, src: Address, dst: Address)
    ensures var fs := Fields(d, payloadSize, payloadId, noNext, src, dst);
            && AllEncoded(fs) && |Packed(fs).proto| == 40 && Packed(fs).proto[8..] == src + dst
  {
    hide PackField, LayoutOk, TotalBits, Packed;
    var first := FirstFields(d, payloadSize, payloadId, noNext);
    FirstFieldsLaidOut(d, payloadSize, payloadId, noNext);
    AddressesPacked(src, dst);
    ComboPacks(first, AddressFields(src, dst));
    PackedRepresents(first);
  }
}
