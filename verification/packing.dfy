/**
 What packing means: the buffer is the bit string of the fields, one after the other.
 */
module Packing {
  import opened Bytes
  import opened FrameBuilder

  /** The low `bits` bits of a field value. */
  function FieldBits(f: Field): (b: seq<bool>)
    requires Encoded(f)
    ensures |b| == if Emitted(f) then f.bits else 0
  {
    if !Emitted(f) then []
    else seq(f.bits, t requires 0 <= t < f.bits => BitAt(f.value, 8 * |f.value| - f.bits + t))
  }

  function Concat(fs: seq<Field>): seq<bool>
    requires AllEncoded(fs)
  {
    if fs == [] then [] else Concat(fs[..|fs| - 1]) + FieldBits(fs[|fs| - 1])
  }

  /** `proto` holds exactly the bits `b`, padded with zeros to a whole byte. */
  ghost predicate Represents(proto: seq<byte>, b: seq<bool>) {
    && |proto| == (|b| + 7) / 8
    && forall i :: 0 <= i < 8 * |proto| ==> BitAt(proto, i) == (i < |b| && b[i])
  }

  // ------- layouts the packer gets right -------

  predicate StepOk(pos: nat, bits: nat) {
    if bits % 8 == 0 then bits == 0 || pos == 0 || pos == 4 else pos == 0 || pos + bits % 8 <= 8
  }

  function TotalBits(sizes: seq<nat>): nat {
    if sizes == [] then 0 else TotalBits(sizes[..|sizes| - 1]) + sizes[|sizes| - 1]
  }

  predicate LayoutOk(sizes: seq<nat>) {
    sizes == [] || (LayoutOk(sizes[..|sizes| - 1])
                    && StepOk(TotalBits(sizes[..|sizes| - 1]) % 8, sizes[|sizes| - 1]))
  }

  function SizeOf(f: Field): nat { if f.isFrame then f.bits else 0 }

  function Sizes(fs: seq<Field>): (s: seq<nat>)
    ensures |s| == |fs| && forall i :: 0 <= i < |fs| ==> s[i] == SizeOf(fs[i])
  {
    seq(|fs|, i requires 0 <= i < |fs| => SizeOf(fs[i]))
  }

  lemma SizesJoined(a: seq<Field>, b: seq<Field>)
    ensures Sizes(a + b) == Sizes(a) + Sizes(b)
  {
  }

  lemma {:induction false} TotalJoined(s: seq<nat>, t: seq<nat>)
    ensures TotalBits(s + t) == TotalBits(s) + TotalBits(t)
    decreases |t|
  {
    if t == [] {
      assert s + t == s;
    } else {
      assert (s + t)[..|s + t| - 1] == s + t[..|t| - 1];
      TotalJoined(s, t[..|t| - 1]);
    }
  }

  lemma BitsJoined(a: seq<Field>, b: seq<Field>)
    ensures TotalBits(Sizes(a + b)) == TotalBits(Sizes(a)) + TotalBits(Sizes(b))
  {
    SizesJoined(a, b);
    TotalJoined(Sizes(a), Sizes(b));
    hide TotalBits, SizeOf;
  }

  /** Layouts are built up field by field. */
  predicate Laid(sizes: seq<nat>, total: nat) { LayoutOk(sizes) && TotalBits(sizes) == total }

  lemma Lay(sizes: seq<nat>, total: nat, bits: nat, longer: seq<nat>)
    requires Laid(sizes, total) && StepOk(total % 8, bits)
    requires longer == sizes + [bits]
    ensures Laid(longer, total + bits)
  {
    assert longer[..|sizes|] == sizes;
  }

  lemma NothingLaid()
    ensures Laid([], 0)
  {
  }

  /** Fields lie one after the other. */
  lemma {:induction false} TotalMonotone(sizes: seq<nat>, i: nat, j: nat)
    requires i <= |sizes| && j < |sizes|
    ensures i <= j ==> TotalBits(sizes[..i]) <= TotalBits(sizes[..j])
    ensures i > j ==> TotalBits(sizes[..j]) + sizes[j] <= TotalBits(sizes[..i])
  {
    if i < j {
      assert sizes[..j][..j - 1] == sizes[..j - 1];
      TotalMonotone(sizes, i, j - 1);
    } else if i > j {
      assert sizes[..i][..i - 1] == sizes[..i - 1];
      TotalMonotone(sizes, i - 1, j);
    }
  }

  // ------- one step -------

  lemma ChunkBits(value: seq<byte>, v: nat, i: nat)
    requires v < 8 && i < 8 * |value|
    ensures BitAt(Chunks(value, v), i) == (i + v < 8 * |value| && BitAt(value, i + v))
  {
    var j, k := i / 8, i % 8;
    if v > 0 {
      MsbShl(value[j], v, k);
      if j + 1 < |value| {
        MsbOr(ByteShl(value[j], v), ByteShr(value[j + 1], 8 - v), k);
        MsbShr(value[j + 1], 8 - v, k);
      }
      if k + v < 8 {
        assert (i + v) / 8 == j && (i + v) % 8 == k + v;
      } else {
        assert (i + v) / 8 == j + 1 && (i + v) % 8 == k + v - 8;
      }
    }
  }

  /** A woven byte carries the tail of one byte of `c` and the head of the next. */
  lemma WeaveBits(last: byte, c: seq<byte>, pos: nat, j: nat, k: nat)
    requires 0 < pos < 8 && j < |c| && k < 8
    requires forall t :: pos <= t < 8 ==> !Msb(last, t)
    ensures Msb(Weave(last, c, pos, 8 - pos)[j], k)
         == if 8 * j + k < pos then Msb(last, k) else BitAt(c, 8 * j + k - pos)
  {
    var before := if j == 0 then last else ByteShl(c[j - 1], 8 - pos);
    MsbOr(before, ByteShr(c[j], pos), k);
    MsbShr(c[j], pos, k);
    if j > 0 { MsbShl(c[j - 1], 8 - pos, k); }
    if k >= pos {
      assert (8 * j + k - pos) / 8 == j && (8 * j + k - pos) % 8 == k - pos;
    } else if j > 0 {
      assert (8 * j + k - pos) / 8 == j - 1 && (8 * j + k - pos) % 8 == 8 - pos + k;
    }
  }

  /** The bytes a step writes behind `front`, bit by bit: the old bits, then those of `c`. */
  lemma SplicedBits(last: byte, pos: nat, c: seq<byte>, i: nat)
    requires 0 < pos < 8 && c != [] && i < 8 * |c| + 8
    requires forall t :: pos <= t < 8 ==> !Msb(last, t)
    ensures BitAt(Weave(last, c, pos, 8 - pos) + [ByteShl(c[|c| - 1], 8 - pos)], i)
         == if i < pos then Msb(last, i) else i - pos < 8 * |c| && BitAt(c, i - pos)
  {
    hide Weave, ByteShl, Msb;
    var j, k := i / 8, i % 8;
    if j < |c| {
      WeaveBits(last, c, pos, j, k);
    } else {
      MsbShl(c[|c| - 1], 8 - pos, k);
      if k < pos {
        assert (i - pos) / 8 == |c| - 1 && (i - pos) % 8 == k + 8 - pos;
      }
    }
  }

  lemma BitInFront(front: seq<byte>, rest: seq<byte>, i: nat)
    requires i < 8 * (|front| + |rest|)
    ensures BitAt(front + rest, i) == if i < 8 * |front| then BitAt(front, i) else BitAt(rest, i - 8 * |front|)
  {
    if i >= 8 * |front| {
      assert (i - 8 * |front|) / 8 == i / 8 - |front| && (i - 8 * |front|) % 8 == i % 8;
    }
  }

  /** Bits appended to a buffer that ends on a byte boundary. */
  lemma AppendAligned(proto: seq<byte>, b: seq<bool>, c: seq<byte>, extra: seq<bool>)
    requires Represents(proto, b) && |b| % 8 == 0 && Represents(c, extra)
    ensures Represents(proto + c, b + extra)
  {
    hide BitAt;
    var r, b' := proto + c, b + extra;
    forall i | 0 <= i < 8 * |r| ensures BitAt(r, i) == (i < |b'| && b'[i]) {
      BitInFront(proto, c, i);
    }
  }

  lemma AppendedBit(front: seq<byte>, last: byte, pos: nat, c: seq<byte>, rest: seq<byte>, i: nat)
    requires 0 < pos < 8 && c != [] && i < 8 * (|front| + |rest|)
    requires forall t :: pos <= t < 8 ==> !Msb(last, t)
    requires rest <= Weave(last, c, pos, 8 - pos) + [ByteShl(c[|c| - 1], 8 - pos)]
    ensures BitAt(front + rest, i)
         == var k := i - 8 * |front| - pos;
            if k < 0 then BitAt(front + [last], i) else k < 8 * |c| && BitAt(c, k)
  {
    BitInFront(front, rest, i);
    if i < 8 * |front| {
      assert BitAt(front + [last], i) == BitAt(front, i);
    } else {
      var t := i - 8 * |front|;
      assert BitAt(rest, t) == BitAt(Weave(last, c, pos, 8 - pos) + [ByteShl(c[|c| - 1], 8 - pos)], t);
      SplicedBits(last, pos, c, t);
      if t < pos { BitInFront(front, [last], i); }
    }
  }

  lemma LastBits(proto: seq<byte>, t: nat)
    requires proto != [] && t < 8
    ensures BitAt(proto, 8 * (|proto| - 1) + t) == Msb(proto[|proto| - 1], t)
  {
  }

  /** Bits appended to a buffer that ends inside a byte.  `rest` is what the packer leaves:
      one byte more than the woven ones when the bits run over into it. */
  lemma AppendUnaligned(proto: seq<byte>, b: seq<bool>, c: seq<byte>, extra: seq<bool>, rest: seq<byte>)
    requires Represents(proto, b) && |b| % 8 != 0 && Represents(c, extra) && c != []
    requires rest <= Weave(proto[|proto| - 1], c, |b| % 8, 8 - |b| % 8) + [ByteShl(c[|c| - 1], 8 - |b| % 8)]
    requires |proto| - 1 + |rest| == (|b| + |extra| + 7) / 8
    ensures Represents(proto[..|proto| - 1] + rest, b + extra)
  {
    hide Weave, BitAt, Msb;
    var pos, n := |b| % 8, |proto|;
    var front, last := proto[..n - 1], proto[n - 1];
    assert proto == front + [last];
    assert |b| == 8 * (n - 1) + pos;
    forall t | pos <= t < 8 ensures !Msb(last, t) {
      LastBits(proto, t);
    }
    var b' := b + extra;
    forall i | 0 <= i < 8 * (n - 1 + |rest|) ensures BitAt(front + rest, i) == (i < |b'| && b'[i]) {
      AppendedBit(front, last, pos, c, rest, i);
    }
  }

  lemma ChunksRepresent(f: Field)
    requires Encoded(f) && Emitted(f)
    ensures Represents(Chunks(f.value, 8 * |f.value| - f.bits), FieldBits(f))
  {
    var m, v := |f.value|, 8 * |f.value| - f.bits;
    forall i | 0 <= i < 8 * m ensures BitAt(Chunks(f.value, v), i) == (i < f.bits && FieldBits(f)[i]) {
      ChunkBits(f.value, v, i);
    }
  }

  lemma WholeUnaligned(proto: seq<byte>, b: seq<bool>, f: Field)
    requires Encoded(f) && Emitted(f) && f.bits == 8 * |f.value|
    requires Represents(proto, b) && |b| % 8 == 4
    ensures Represents(AddWhole(proto, 4, f.value), b + FieldBits(f))
  {
    var n, m := |proto|, |f.value|;
    var rest := Weave(proto[n - 1], f.value, 4, 4) + [ByteShl(f.value[m - 1], 4)];
    assert Represents(f.value, FieldBits(f)) by {
      assert Chunks(f.value, 0) == f.value;
      ChunksRepresent(f);
    }
    assert n - 1 + |rest| == (|b| + f.bits + 7) / 8;
    AppendUnaligned(proto, b, f.value, FieldBits(f), rest);
    assert AddWhole(proto, 4, f.value) == proto[..n - 1] + rest;
  }

  lemma RepresentsEnds(proto: seq<byte>, b: seq<bool>)
    requires Represents(proto, b) && |b| % 8 != 0
    ensures proto != [] && |b| == 8 * (|proto| - 1) + |b| % 8
  {
    hide BitAt;
  }

  lemma PartialUnaligned(proto: seq<byte>, b: seq<bool>, f: Field)
    requires Encoded(f) && Emitted(f) && f.bits % 8 != 0
    requires Represents(proto, b) && 0 < |b| % 8 && |b| % 8 + f.bits % 8 <= 8
    ensures Represents(AddPartial(proto, |b| % 8, Chunks(f.value, 8 * |f.value| - f.bits)), b + FieldBits(f))
  {
    hide Represents, FieldBits, Weave, Chunks;
    RepresentsEnds(proto, b);
    var n, pos := |proto|, |b| % 8;
    var c := Chunks(f.value, 8 * |f.value| - f.bits);
    var rest := Weave(proto[n - 1], c, pos, 8 - pos);
    ChunksRepresent(f);
    FitsLastByte(n, pos, f.bits);
    AppendUnaligned(proto, b, c, FieldBits(f), rest);
  }

  /** A last chunk that fits the current byte adds no byte of its own. */
  lemma FitsLastByte(n: nat, pos: nat, bits: nat)
    requires n > 0 && bits % 8 != 0 && 0 < pos && pos + bits % 8 <= 8
    ensures n - 1 + (bits + 7) / 8 == (8 * (n - 1) + pos + bits + 7) / 8
  {
    var q := bits / 8;
    assert bits == 8 * q + bits % 8;
  }

  lemma Aligned(proto: seq<byte>, b: seq<bool>, f: Field)
    requires Encoded(f) && Emitted(f)
    requires Represents(proto, b) && |b| % 8 == 0
    ensures Represents(PackField(Packer(proto, 0), f).proto, b + FieldBits(f))
  {
    hide Represents;
    var c := Chunks(f.value, 8 * |f.value| - f.bits);
    ChunksRepresent(f);
    AppendAligned(proto, b, c, FieldBits(f));
    if f.bits == 8 * |f.value| { assert c == f.value; }
  }

  lemma StepRepresents(st: Packer, b: seq<bool>, f: Field)
    requires Encoded(f)
    requires Represents(st.proto, b) && st.lastbitpos == |b| % 8
    requires StepOk(st.lastbitpos, SizeOf(f))
    ensures Represents(PackField(st, f).proto, b + FieldBits(f))
  {
    hide Represents, Chunks, AddWhole, AddPartial;
    var pos := st.lastbitpos;
    if !Emitted(f) {
      assert b + FieldBits(f) == b;
    } else if pos == 0 {
      Aligned(st.proto, b, f);
    } else if f.bits == 8 * |f.value| {
      WholeUnaligned(st.proto, b, f);
    } else {
      PartialUnaligned(st.proto, b, f);
    }
  }

  lemma StepPosition(st: Packer, f: Field, n: nat)
    requires Encoded(f) && st.lastbitpos == n % 8
    requires st.lastbitpos > 0 ==> st.proto != []
    ensures PackField(st, f).lastbitpos == (n + SizeOf(f)) % 8
  {
    ModEight(n, SizeOf(f));
  }

  lemma ModEight(n: nat, k: nat)
    ensures (n % 8 + k) % 8 == (n + k) % 8
    ensures k % 8 == 0 ==> (n + k) % 8 == n % 8
  {
  }

  /** Packing one field more of a list. */
  lemma PackedMore(fs: seq<Field>, j: nat)
    requires AllEncoded(fs) && 0 < j <= |fs|
    ensures Packed(fs[..j]) == PackField(Packed(fs[..j - 1]), fs[j - 1])
  {
    hide PackField;
    assert fs[..j][..j - 1] == fs[..j - 1];
  }

  lemma ConcatMore(fs: seq<Field>, j: nat)
    requires AllEncoded(fs) && 0 < j <= |fs|
    ensures Concat(fs[..j]) == Concat(fs[..j - 1]) + FieldBits(fs[j - 1])
  {
    hide FieldBits;
    assert fs[..j][..j - 1] == fs[..j - 1];
  }

  lemma {:induction false} PackedRepresents(fs: seq<Field>)
    requires AllEncoded(fs) && LayoutOk(Sizes(fs))
    ensures Represents(Packed(fs).proto, Concat(fs))
    ensures |Concat(fs)| == TotalBits(Sizes(fs))
    ensures Packed(fs).lastbitpos == |Concat(fs)| % 8
  {
    hide PackField, FieldBits, BitAt;
    if fs != [] {
      var init := fs[..|fs| - 1];
      assert Sizes(fs)[..|fs| - 1] == Sizes(init);
      PackedRepresents(init);
      StepRepresents(Packed(init), Concat(init), fs[|fs| - 1]);
      StepPosition(Packed(init), fs[|fs| - 1], |Concat(init)|);
    }
  }

  // ------- the size a protocol reports -------

  /** Sums the bit sizes of the frame fields and rounds up to bytes. */
  method ProtocolFrameSize(fields: seq<Field>) returns (size: nat)
    ensures size == (TotalBits(Sizes(fields)) + 7) / 8
  {
    var bitsize := 0;
    for i := 0 to |fields|
      invariant bitsize == TotalBits(Sizes(fields)[..i])
    {
      assert Sizes(fields)[..i + 1][..i] == Sizes(fields)[..i];
      if fields[i].isFrame {
        bitsize := bitsize + fields[i].bits;
      }
    }
    assert Sizes(fields)[..|fields|] == Sizes(fields);
    size := (bitsize + 7) / 8;
  }

  /** The reported size is the length of what is packed, for a checksum or not. */
  /** Where the packer stands after a layout. */
  lemma PackedEnds(fs: seq<Field>)
    requires AllEncoded(fs) && LayoutOk(Sizes(fs))
    ensures |Packed(fs).proto| == (TotalBits(Sizes(fs)) + 7) / 8
    ensures Packed(fs).lastbitpos == TotalBits(Sizes(fs)) % 8
  {
    hide Packed, Concat, LayoutOk, TotalBits, BitAt;
    PackedRepresents(fs);
  }

  lemma FrameSizeIsLength(fields: seq<Field>, forCksum: bool)
    requires AllEncoded(PreparedAll(fields, forCksum)) && LayoutOk(Sizes(fields))
    ensures |Packed(PreparedAll(fields, forCksum)).proto| == (TotalBits(Sizes(fields)) + 7) / 8
  {
    assert Sizes(PreparedAll(fields, forCksum)) == Sizes(fields);
    PackedRepresents(PreparedAll(fields, forCksum));
  }
}
