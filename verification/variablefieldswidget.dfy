/**
 The variable-field editor: for each standard field it offers a counter type, a byte
 offset and a mask, computed from the field's bit offset and size.  The lemmas say when
 such a counter keeps to its field and when it reaches all of it.
 */
module VariableFieldsWidget {
  import opened Unsigned
  import opened Bits
  import opened Bytes
  import opened FrameBuilder
  import opened Packing
  import opened VariableFields
  import opened CksumField

  /** fieldFrameBitOffset adds up the sizes of all earlier fields, meta fields included. */
  function BitOffset(fields: seq<Field>, index: nat): nat
    requires index <= |fields|
  {
    if index == 0 then 0 else BitOffset(fields, index - 1) + fields[index - 1].bits
  }

  /** The bit offsets a protocol has computed so far. */
  class OffsetCache {
    var offsets: map<nat, nat>
    const enabled: bool

    constructor (enabled: bool)
      ensures this.enabled == enabled && offsets == map[]
    {
      this.enabled := enabled;
      offsets := map[];
    }

    ghost predicate Valid(fields: seq<Field>)
      reads this
    {
      forall k :: k in offsets ==> k < |fields| && offsets[k] == BitOffset(fields, k)
    }

    method FieldFrameBitOffset(fields: seq<Field>, index: int) returns (ofs: int)
      requires Valid(fields)
      modifies this
      ensures Valid(fields)
      ensures ofs == if 0 <= index < |fields| && fields[index].isFrame then BitOffset(fields, index) else -1
      ensures !enabled ==> offsets == old(offsets)
    {
      if index < 0 || index >= |fields| || !fields[index].isFrame { return -1; }
      if index in offsets { return offsets[index]; }
      ofs := 0;
      for i := 0 to index
        invariant Valid(fields) && ofs == BitOffset(fields, i)
        invariant !enabled ==> offsets == old(offsets)
      {
        if enabled && i !in offsets {
          offsets := offsets[i := ofs];
        }
        ofs := ofs + fields[i].bits;
      }
      if enabled {
        offsets := offsets[index := ofs];
      }
    }
  }

  // ------- the template of a standard field -------

  datatype Template = Template(ctype: CounterType, offset: nat, mask: uint32)

  /** `((ones << (w - bitSize)) & ones) >> (bitOfs & 7)` on words of `w` bits. */
  function MaskOf(w: nat, bitOfs: nat, bitSize: nat): (m: nat)
    requires w <= 32 && bitSize <= w
    ensures m < 0x1_0000_0000
  {
    var cut := Low(Shl(Pow2(w) - 1, w - bitSize), w);
    Pow2Monotone(w, 32);
    Pow2Values();
    Shr(cut, bitOfs % 8)
  }

  function TemplateOf(bitOfs: nat, bitSize: nat): Template {
    if bitSize <= 8 then Template(Counter8, bitOfs / 8, MaskOf(8, bitOfs, bitSize))
    else if bitSize <= 16 then Template(Counter16, bitOfs / 8, MaskOf(16, bitOfs, bitSize))
    else if bitSize <= 32 then Template(Counter32, bitOfs / 8, MaskOf(32, bitOfs, bitSize))
    else Template(Counter32, bitOfs / 8, 0xFFFF_FFFF)
  }

  /** There is one item for each frame field, in the order of the fields, and none for a meta
      field; item `k` is the template of field `indexes[k]`. */
  ghost predicate Offers(fields: seq<Field>, items: seq<Template>, indexes: seq<nat>) {
    && |items| == |indexes|
    && (forall k, l :: 0 <= k < l < |indexes| ==> indexes[k] < indexes[l])
    && (forall i :: 0 <= i < |fields| ==> (fields[i].isFrame <==> i in indexes))
    && (forall k :: 0 <= k < |indexes| ==>
          && indexes[k] < |fields|
          && items[k] == TemplateOf(BitOffset(fields, indexes[k]), fields[indexes[k]].bits))
  }

  /** loadProtocolFields: one entry for each frame field. */
  method LoadProtocolFields(fields: seq<Field>, cache: OffsetCache)
      returns (items: seq<Template>, ghost indexes: seq<nat>)
    requires cache.Valid(fields)
    modifies cache
    ensures cache.Valid(fields)
    ensures Offers(fields, items, indexes)
  {
    items, indexes := [], [];
    for i := 0 to |fields|
      invariant cache.Valid(fields)
      invariant |items| == |indexes|
      invariant forall k, l :: 0 <= k < l < |indexes| ==> indexes[k] < indexes[l]
      invariant forall j :: 0 <= j < i ==> (fields[j].isFrame <==> j in indexes)
      invariant forall k :: 0 <= k < |indexes| ==>
          && indexes[k] < i
          && items[k] == TemplateOf(BitOffset(fields, indexes[k]), fields[indexes[k]].bits)
    {
      if !fields[i].isFrame { continue; }
      var bitOfs := cache.FieldFrameBitOffset(fields, i);
      items := items + [TemplateOf(bitOfs, fields[i].bits)];
      indexes := indexes + [i];
    }
  }

  // ------- which bits of the frame a template masks -------

  function Counter(t: Template, value: uint32, mode: Mode, count: uint32, step: uint32): VariableField
    requires t.offset < 0x1_0000_0000
  {
    VariableField(t.ctype, t.offset, t.mask, value, mode, count, step)
  }

  /** Bit `p` of the frame is under the mask of the template. */
  predicate Reaches(t: Template, p: nat) {
    var w := 8 * Width(t.ctype);
    8 * t.offset <= p < 8 * t.offset + w && Bit(t.mask, 8 * t.offset + w - 1 - p)
  }

  lemma OnesBits(w: nat, i: nat)
    ensures Bit(Pow2(w) - 1, i) == (i < w)
  {
    if i < w {
      BitNot(0, w, i);
      BitZero(i);
    } else {
      BitAbove(Pow2(w) - 1, w, i);
    }
  }

  lemma MaskBits(w: nat, bitOfs: nat, bitSize: nat, i: nat)
    requires w <= 32 && bitSize <= w
    ensures Bit(MaskOf(w, bitOfs, bitSize), i) == (w - bitSize <= i + bitOfs % 8 < w)
  {
    var k := i + bitOfs % 8;
    var all := Shl(Pow2(w) - 1, w - bitSize);
    BitShr(Low(all, w), bitOfs % 8, i);
    BitLow(all, w, k);
    BitShl(Pow2(w) - 1, w - bitSize, k);
    if k >= w - bitSize { OnesBits(w, k - (w - bitSize)); }
  }

  /** The mask lies over the field's bits from `base` on, the byte the field starts in. */
  lemma MaskReach(w: nat, bitOfs: nat, bitSize: nat, base: nat, p: nat)
    requires w <= 32 && bitSize <= w && base == bitOfs - bitOfs % 8 && base <= p < base + w
    ensures Bit(MaskOf(w, bitOfs, bitSize), base + w - 1 - p) == (bitOfs <= p < bitOfs + bitSize)
  {
    hide MaskOf, Bit;
    MaskBits(w, bitOfs, bitSize, base + w - 1 - p);
  }

  /** The frame bits a template reaches: the field, cut off where the counter ends; for a
      field of more than 32 bits, the 32 bits from the byte it starts in. */
  lemma TemplateReach(bitOfs: nat, bitSize: nat, p: nat)
    ensures var t := TemplateOf(bitOfs, bitSize);
            var end := 8 * (bitOfs / 8) + 8 * Width(t.ctype);
            Reaches(t, p) == if bitSize <= 32 then bitOfs <= p < bitOfs + bitSize && p < end
                             else 8 * (bitOfs / 8) <= p < end
  {
    hide MaskOf, Bit;
    var t := TemplateOf(bitOfs, bitSize);
    var w := 8 * Width(t.ctype);
    var base := 8 * (bitOfs / 8);
    if base <= p < base + w {
      if bitSize <= 32 {
        MaskReach(w, bitOfs, bitSize, base, p);
      } else {
        Pow2Values();
        OnesBits(32, base + w - 1 - p);
      }
    }
  }

  /** A template keeps to its field exactly when the field has at most 32 bits or starts on a byte. */
  lemma TemplateStaysInsideIff(bitOfs: nat, bitSize: nat)
    ensures (forall p: nat :: Reaches(TemplateOf(bitOfs, bitSize), p) ==> bitOfs <= p < bitOfs + bitSize)
        <==> (bitSize <= 32 || bitOfs % 8 == 0)
  {
    forall p: nat | Reaches(TemplateOf(bitOfs, bitSize), p)
      ensures (bitSize <= 32 || bitOfs % 8 == 0) ==> bitOfs <= p < bitOfs + bitSize
    {
      TemplateReach(bitOfs, bitSize, p);
    }
    if bitSize > 32 && bitOfs % 8 != 0 {
      TemplateReach(bitOfs, bitSize, 8 * (bitOfs / 8));
    }
  }

  /** A template reaches all of its field exactly when the field ends before the counter does. */
  lemma TemplateCoversIff(bitOfs: nat, bitSize: nat)
    ensures (forall p: nat :: bitOfs <= p < bitOfs + bitSize ==> Reaches(TemplateOf(bitOfs, bitSize), p))
        <==> bitOfs % 8 + bitSize <= 8 * Width(TemplateOf(bitOfs, bitSize).ctype) || bitSize == 0
  {
    var t := TemplateOf(bitOfs, bitSize);
    forall p: nat | bitOfs <= p < bitOfs + bitSize
      ensures bitOfs % 8 + bitSize <= 8 * Width(t.ctype) ==> Reaches(t, p)
    {
      TemplateReach(bitOfs, bitSize, p);
    }
    if bitOfs % 8 + bitSize > 8 * Width(t.ctype) && bitSize > 0 {
      TemplateReach(bitOfs, bitSize, bitOfs + bitSize - 1);
    }
  }

  // ------- the effect on a packed frame -------

  /** The offset the editor computes is where the packer puts the field, exactly when the
      fields before it that do not reach the frame have no size. */
  lemma {:induction false} OffsetIsPositionIff(fields: seq<Field>, index: nat)
    requires index <= |fields|
    ensures TotalBits(Sizes(fields)[..index]) <= BitOffset(fields, index)
    ensures TotalBits(Sizes(fields)[..index]) == BitOffset(fields, index)
        <==> (forall k :: 0 <= k < index && !fields[k].isFrame ==> fields[k].bits == 0)
  {
    if index > 0 {
      OffsetIsPositionIff(fields, index - 1);
      assert Sizes(fields)[..index][..index - 1] == Sizes(fields)[..index - 1];
    }
  }

  /** With the editor's template for a field at `bitOfs`, the bits the template reaches come
      from the counter, if it lies within the frame; all others stay. */
  lemma TemplateVaried(s: seq<byte>, bitOfs: nat, bitSize: nat, value: uint32, mode: Mode, count: uint32,
                       step: uint32, frameIndex: nat, rnd: nat, p: nat)
    requires bitSize <= 32 || bitOfs % 8 == 0
    requires count > 0 && bitOfs / 8 < 0x1_0000_0000 && p < 8 * |s|
    ensures var t := TemplateOf(bitOfs, bitSize);
            var vf := Counter(t, value, mode, count, step);
            var end := 8 * (t.offset + Width(t.ctype));
            BitAt(Varied(s, frameIndex, vf, rnd), p) == if bitOfs <= p < bitOfs + bitSize && p < end <= 8 * |s|
                                                        then Bit(CounterValue(vf, frameIndex, rnd), end - 1 - p)
                                                        else BitAt(s, p)
  {
    hide Varied, CounterValue, MaskOf;
    var t := TemplateOf(bitOfs, bitSize);
    VariedBit(s, frameIndex, Counter(t, value, mode, count, step), rnd, p);
    TemplateReach(bitOfs, bitSize, p);
  }

  /** Where bit `t` of field `j` is in the concatenation. */
  function PlaceOf(fs: seq<Field>, j: nat, t: nat): nat
    requires j < |fs|
  {
    TotalBits(Sizes(fs)[..j]) + t
  }

  lemma PlaceInFront(fs: seq<Field>, j: nat, t: nat)
    requires j < |fs| - 1
    ensures PlaceOf(fs[..|fs| - 1], j, t) == PlaceOf(fs, j, t)
  {
    assert Sizes(fs[..|fs| - 1])[..j] == Sizes(fs)[..j];
  }

  lemma PlaceLast(fs: seq<Field>, t: nat)
    requires fs != []
    ensures PlaceOf(fs, |fs| - 1, t) == TotalBits(Sizes(fs[..|fs| - 1])) + t
  {
    assert Sizes(fs)[..|fs| - 1] == Sizes(fs[..|fs| - 1]);
  }

  lemma {:induction false} ConcatAt(fs: seq<Field>, j: nat, t: nat)
    requires AllEncoded(fs) && j < |fs| && t < SizeOf(fs[j])
    ensures PlaceOf(fs, j, t) < |Concat(fs)| == TotalBits(Sizes(fs))
    ensures |FieldBits(fs[j])| == SizeOf(fs[j])
    ensures Concat(fs)[PlaceOf(fs, j, t)] == FieldBits(fs[j])[t]
  {
    var n := |fs| - 1;
    assert Concat(fs) == Concat(fs[..n]) + FieldBits(fs[n]);
    hide FieldBits, Encoded, TotalBits, SizeOf, Concat, Sizes, PlaceOf;
    FieldBitsLength(fs[j]);
    ConcatLength(fs);
    ConcatLength(fs[..n]);
    if j < n {
      ConcatAt(fs[..n], j, t);
      PlaceInFront(fs, j, t);
    } else {
      PlaceLast(fs, t);
    }
  }

  /** The packed frame has bit `t` of field `j` in its place. */
  lemma PackedBit(fs: seq<Field>, j: nat, t: nat)
    requires AllEncoded(fs) && LayoutOk(Sizes(fs)) && j < |fs| && t < SizeOf(fs[j])
    ensures |FieldBits(fs[j])| == SizeOf(fs[j]) && PlaceOf(fs, j, t) < 8 * |Packed(fs).proto|
    ensures BitAt(Packed(fs).proto, PlaceOf(fs, j, t)) == FieldBits(fs[j])[t]
  {
    hide Packed, Concat, FieldBits, TotalBits, LayoutOk, BitAt, PlaceOf;
    PackedRepresents(fs);
    ConcatAt(fs, j, t);
  }

  /** No meta field before field `i` has bits. */
  predicate MetaFree(fs: seq<Field>, i: nat)
    requires i <= |fs|
  {
    forall k :: 0 <= k < i && !fs[k].isFrame ==> fs[k].bits == 0
  }

  /** It is inside field `i`, where the editor takes that to be, only for `j == i`. */
  lemma PlaceInside(fs: seq<Field>, i: nat, j: nat, t: nat)
    requires i < |fs| && fs[i].isFrame && j < |fs| && t < SizeOf(fs[j])
    requires MetaFree(fs, i)
    ensures BitOffset(fs, i) <= PlaceOf(fs, j, t) < BitOffset(fs, i) + fs[i].bits <==> i == j
  {
    OffsetIsPositionIff(fs, i);
    if i < j { TotalMonotone(Sizes(fs), j, i); }
    if j < i { TotalMonotone(Sizes(fs), i, j); }
    hide TotalBits, BitOffset;
  }

  /** An item the editor offers reaches, in the packed frame, the bits of its field that lie
      within the counter and no others; its counter is the smallest the field fits into, and
      starts at the byte the field starts in. */
  lemma ItemReaches(fs: seq<Field>, items: seq<Template>, indexes: seq<nat>, k: nat, p: nat)
    requires Offers(fs, items, indexes) && k < |items| && MetaFree(fs, indexes[k])
    ensures var (t, bits) := (items[k], fs[indexes[k]].bits);
            var (start, w) := (PlaceOf(fs, indexes[k], 0), 8 * Width(t.ctype));
            && fs[indexes[k]].isFrame
            && w == (if bits <= 8 then 8 else if bits <= 16 then 16 else 32)
            && t.offset == start / 8
            && (bits <= 32 || start % 8 == 0 ==>
                  (Reaches(t, p) <==> start <= p < start + bits && p < 8 * (start / 8) + w))
            && (start % 8 + bits <= w ==> (Reaches(t, p) <==> start <= p < start + bits))
  {
    var i := indexes[k];
    OffsetIsPositionIff(fs, i);
    TemplateReach(BitOffset(fs, i), fs[i].bits, p);
    assert i in indexes;
    hide Reaches, MaskOf, BitOffset, TotalBits;
  }

  /** Varying frame field `i` of a packed frame: every bit of every other field is still that
      of its value, and so are those bits of field `i` that lie beyond the counter; the rest of
      field `i` is the counter's. */
  lemma FieldVaried(fs: seq<Field>, i: nat, value: uint32, mode: Mode, count: uint32, step: uint32,
                            frameIndex: nat, rnd: nat, j: nat, t: nat)
    requires AllEncoded(fs) && LayoutOk(Sizes(fs))
    requires i < |fs| && fs[i].isFrame && (fs[i].bits <= 32 || BitOffset(fs, i) % 8 == 0)
    requires MetaFree(fs, i)
    requires count > 0 && BitOffset(fs, i) / 8 < 0x1_0000_0000
    requires j < |fs| && t < SizeOf(fs[j])
    ensures var item := TemplateOf(BitOffset(fs, i), fs[i].bits);
            var vf := Counter(item, value, mode, count, step);
            var (frame, end) := (Varied(Packed(fs).proto, frameIndex, vf, rnd), 8 * (item.offset + Width(item.ctype)));
            var place := PlaceOf(fs, j, t);
            && place < 8 * |frame| && |FieldBits(fs[j])| == SizeOf(fs[j])
            && BitAt(frame, place) == if i == j && place < end <= 8 * |frame|
                                      then Bit(CounterValue(vf, frameIndex, rnd), end - 1 - place)
                                      else FieldBits(fs[j])[t]
  {
    hide Varied, CounterValue, TemplateOf, Packed, FieldBits, LayoutOk, BitOffset, BitAt, PlaceOf, Encoded, SizeOf;
    PackedBit(fs, j, t);
    PlaceInside(fs, i, j, t);
    TemplateVaried(Packed(fs).proto, BitOffset(fs, i), fs[i].bits, value, mode, count, step, frameIndex, rnd,
                   PlaceOf(fs, j, t));
  }

  /** So it is with the counter of any item the editor offers, set at will: the bits of the
      item's own field that lie within the counter are the counter's, and all others those of
      the field's value. */
  lemma StandardFieldVaried(fs: seq<Field>, items: seq<Template>, indexes: seq<nat>, k: nat, value: uint32,
                            mode: Mode, count: uint32, step: uint32, frameIndex: nat, rnd: nat, j: nat, t: nat)
    requires AllEncoded(fs) && LayoutOk(Sizes(fs))
    requires Offers(fs, items, indexes) && k < |items| && MetaFree(fs, indexes[k])
    requires fs[indexes[k]].bits <= 32 || PlaceOf(fs, indexes[k], 0) % 8 == 0
    requires count > 0 && PlaceOf(fs, indexes[k], 0) / 8 < 0x1_0000_0000
    requires j < |fs| && t < SizeOf(fs[j])
    ensures items[k].offset == PlaceOf(fs, indexes[k], 0) / 8
    ensures var vf := Counter(items[k], value, mode, count, step);
            var (frame, end) := (Varied(Packed(fs).proto, frameIndex, vf, rnd), 8 * (vf.offset + Width(vf.ctype)));
            var place := PlaceOf(fs, j, t);
            && place < 8 * |frame| && |FieldBits(fs[j])| == SizeOf(fs[j])
            && BitAt(frame, place) == if indexes[k] == j && place < end <= 8 * |frame|
                                      then Bit(CounterValue(vf, frameIndex, rnd), end - 1 - place)
                                      else FieldBits(fs[j])[t]
  {
    hide Varied, CounterValue, TotalBits, Packed, FieldBits, LayoutOk, BitOffset, BitAt, Encoded, SizeOf, Reaches;
    ItemReaches(fs, items, indexes, k, 0);
    OffsetIsPositionIff(fs, indexes[k]);
    FieldVaried(fs, indexes[k], value, mode, count, step, frameIndex, rnd, j, t);
  }
}
