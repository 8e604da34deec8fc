/**
 A protocol with a checksum field is packed twice: with the field as zero, to compute the
 checksum, and with the checksum in place.  The two frames differ in those two bytes only.
 */
module CksumField {
  import opened Bits
  import opened Bytes
  import opened FrameBuilder
  import opened Packing
  import opened VariableFields

  /** Field `k` is the only checksum field: 16 bits on a byte boundary. */
  predicate HasCksum(fields: seq<Field>, k: nat) {
    && k < |fields|
    && fields[k].isFrame && fields[k].isCksum && fields[k].bits == 16
    && TotalBits(Sizes(fields)[..k]) % 8 == 0
    && forall i :: 0 <= i < |fields| && i != k ==> !fields[i].isCksum
  }

  function CksumAt(fields: seq<Field>, k: nat): nat
    requires k <= |fields|
  {
    TotalBits(Sizes(fields)[..k]) / 8
  }

  /** No variable field has a mask over bytes `o` and `o + 1` of a frame of `n` bytes. */
  predicate Spared(vfs: seq<VariableField>, n: nat, o: nat) {
    forall k, p :: 0 <= k < |vfs| && 8 * o <= p < 8 * (o + 2) ==> !Masked(vfs[k], n, p)
  }

  lemma {:induction false} NothingPrepared(fs: seq<Field>)
    requires forall i :: 0 <= i < |fs| ==> !fs[i].isCksum
    ensures PreparedAll(fs, true) == fs
  {
  }

  lemma PreparedEncoded(fields: seq<Field>, forCksum: bool)
    requires AllEncoded(fields)
    ensures AllEncoded(PreparedAll(fields, forCksum))
    ensures Sizes(PreparedAll(fields, forCksum)) == Sizes(fields)
  {
  }

  lemma ZeroFieldBits(f: Field)
    requires Emitted(f) && f.isCksum
    ensures Encoded(Prepared(f, true))
    ensures FieldBits(Prepared(f, true)) == seq(f.bits, _ => false)
  {
    var g := Prepared(f, true);
    forall t | 0 <= t < f.bits ensures !FieldBits(g)[t] {
      var p := 8 * |g.value| - g.bits + t;
      assert !BitAt(g.value, p) by { assert g.value[p / 8] == 0; BitZero(7 - p % 8); }
    }
  }

  /** Zeroing the field clears its bits of the concatenation. */
  lemma {:induction false} ConcatZeroed(fs: seq<Field>, k: nat)
    requires AllEncoded(fs) && HasCksum(fs, k)
    ensures AllEncoded(PreparedAll(fs, true))
    ensures var a, b, start := Concat(PreparedAll(fs, true)), Concat(fs), TotalBits(Sizes(fs)[..k]);
            && |a| == |b| && start + 16 <= |b|
            && b[start..start + 16] == FieldBits(fs[k])
            && a == b[..start] + seq(16, _ => false) + b[start + 16..]
  {
    hide FieldBits;
    PreparedEncoded(fs, true);
    var n := |fs| - 1;
    var init := fs[..n];
    assert PreparedAll(fs, true)[..n] == PreparedAll(init, true);
    ConcatLength(init);
    assert Sizes(fs)[..n] == Sizes(init);
    if k == n {
      NothingPrepared(init);
      ZeroFieldBits(fs[n]);
    } else {
      assert Sizes(init)[..k] == Sizes(fs)[..k];
      ConcatZeroed(init, k);
      assert Prepared(fs[n], true) == fs[n];
      Extended(Concat(init), FieldBits(fs[n]), TotalBits(Sizes(fs)[..k]));
    }
  }

  lemma Extended(b: seq<bool>, more: seq<bool>, start: nat)
    requires start + 16 <= |b|
    ensures (b + more)[start..start + 16] == b[start..start + 16]
    ensures (b + more)[..start] + seq(16, _ => false) + (b + more)[start + 16..]
         == b[..start] + seq(16, _ => false) + b[start + 16..] + more
  {
  }

  lemma {:induction false} ConcatLength(fs: seq<Field>)
    requires AllEncoded(fs)
    ensures |Concat(fs)| == TotalBits(Sizes(fs))
  {
    hide FieldBits;
    if fs != [] {
      ConcatLength(fs[..|fs| - 1]);
      assert Sizes(fs)[..|fs| - 1] == Sizes(fs[..|fs| - 1]);
      FieldBitsLength(fs[|fs| - 1]);
    }
  }

  lemma FieldBitsLength(f: Field)
    requires Encoded(f)
    ensures |FieldBits(f)| == SizeOf(f)
  {
  }

  // ------- the same, in bytes -------

  predicate InField(o: nat, p: nat) { 8 * o <= p < 8 * (o + 2) }

  /** The two packed frames, bit by bit. */
  lemma PackedPair(fields: seq<Field>, k: nat)
    requires AllEncoded(fields) && HasCksum(fields, k) && LayoutOk(Sizes(fields))
    ensures AllEncoded(PreparedAll(fields, true))
    ensures Cleared(Packed(PreparedAll(fields, true)).proto, Packed(fields).proto, CksumAt(fields, k))
  {
    hide FieldBits, BitAt, Packed, LayoutOk, TotalBits;
    PreparedEncoded(fields, true);
    PackedRepresents(fields);
    PackedRepresents(PreparedAll(fields, true));
    ConcatZeroed(fields, k);
  }

  lemma WindowBits(b: seq<byte>, c: seq<bool>, o: nat, v: seq<byte>, q: nat)
    requires Represents(b, c) && o + 2 <= |b| && 8 * o + 16 <= |c| && |v| == 2 && q < 16
    requires c[8 * o..8 * o + 16][q] == BitAt(v, q)
    ensures BitAt(b[o..o + 2], q) == BitAt(v, q)
  {
    hide BitAt;
    BitShifted(b, o, 2, q);
    assert c[8 * o..8 * o + 16][q] == c[8 * o + q];
  }

  lemma WholeField(f: Field, q: nat)
    requires Encoded(f) && f.isFrame && f.bits == 16 && q < 16
    ensures |f.value| == 2 && FieldBits(f)[q] == BitAt(f.value, q)
  {
  }

  /** The packed checksum is the value of the field. */
  lemma PackedValue(fields: seq<Field>, k: nat)
    requires AllEncoded(fields) && HasCksum(fields, k) && LayoutOk(Sizes(fields))
    ensures CksumAt(fields, k) + 2 <= |Packed(fields).proto|
    ensures Packed(fields).proto[CksumAt(fields, k)..CksumAt(fields, k) + 2] == fields[k].value
  {
    assert Encoded(fields[k]) && fields[k].isFrame && fields[k].bits == 16;
    assert 8 * CksumAt(fields, k) == TotalBits(Sizes(fields)[..k]);
    hide Packed, FieldBits, TotalBits, LayoutOk, Concat, CksumAt, Sizes, SizeOf, PreparedAll, Represents, Encoded,
         AllEncoded, HasCksum;
    PackedRepresents(fields);
    ConcatZeroed(fields, k);
    WindowValue(Packed(fields).proto, Concat(fields), CksumAt(fields, k), fields[k]);
  }

  /** Two whole bytes of a bit string. */
  lemma WindowValue(b: seq<byte>, c: seq<bool>, o: nat, f: Field)
    requires Represents(b, c) && 8 * o + 16 <= |c| && Encoded(f) && f.isFrame && f.bits == 16
    requires c[8 * o..8 * o + 16] == FieldBits(f)
    ensures o + 2 <= |b| && b[o..o + 2] == f.value
  {
    assert o + 2 <= |b| && |f.value| == 2;
    hide Represents, BitAt, FieldBits;
    var w := b[o..o + 2];
    forall q | 0 <= q < 16 ensures BitAt(w, q) == BitAt(f.value, q) {
      WholeField(f, q);
      WindowBits(b, c, o, f.value, q);
    }
    SameBytes(w, f.value);
  }

  /** Bytes `o` and `o + 1` are zero in `a`; otherwise `a` and `b` are the same. */
  predicate Cleared(a: seq<byte>, b: seq<byte>, o: nat) {
    && |a| == |b| && o + 2 <= |a|
    && forall p {:trigger BitAt(a, p)} :: 0 <= p < 8 * |a| ==>
         BitAt(a, p) == if InField(o, p) then false else BitAt(b, p)
  }

  /** Variable fields that spare two bytes leave them as they were packed. */
  lemma SparedKept(b: seq<byte>, o: nat, vfs: seq<VariableField>, rnds: seq<nat>, i: nat)
    requires o + 2 <= |b| && Countable(vfs) && |rnds| == |vfs| && Spared(vfs, |b|, o)
    ensures VariedAll(b, i, vfs, rnds)[o..o + 2] == b[o..o + 2]
  {
    hide BitAt, VariedAll, Masked;
    var b' := VariedAll(b, i, vfs, rnds);
    var (x, y) := (b'[o..o + 2], b[o..o + 2]);
    forall q | 0 <= q < 16 ensures BitAt(x, q) == BitAt(y, q) {
      VariedAllUnmasked(b, i, vfs, rnds, 8 * o + q);
      BitShifted(b', o, 2, q);
      BitShifted(b, o, 2, q);
    }
    SameBytes(x, y);
  }

  lemma ClearedZero(a: seq<byte>, b: seq<byte>, o: nat)
    requires Cleared(a, b, o)
    ensures a[o..o + 2] == [0, 0]
  {
    hide BitAt;
    forall q | 0 <= q < 16 ensures BitAt(a[o..o + 2], q) == BitAt([0, 0], q) {
      BitShifted(a, o, 2, q);
      ZeroBit(q);
    }
    SameBytes(a[o..o + 2], [0, 0]);
  }

  /** Variable fields that spare the checksum keep the two frames apart in it only. */
  lemma VariedPair(a: seq<byte>, b: seq<byte>, o: nat, vfs: seq<VariableField>, rnds: seq<nat>, i: nat)
    requires Cleared(a, b, o)
    requires Countable(vfs) && |rnds| == |vfs| && Spared(vfs, |a|, o)
    ensures var a', b' := VariedAll(a, i, vfs, rnds), VariedAll(b, i, vfs, rnds);
            && a'[o..o + 2] == [0, 0]
            && b' == a'[..o] + b[o..o + 2] + a'[o + 2..]
  {
    ClearedZero(a, b, o);
    SparedKept(a, o, vfs, rnds, i);
    SparedKept(b, o, vfs, rnds, i);
    var a', b' := VariedAll(a, i, vfs, rnds), VariedAll(b, i, vfs, rnds);
    hide BitAt, VariedAll, Masked, Spared;
    forall p | 0 <= p < 8 * |b'| && !InField(o, p) ensures BitAt(b', p) == BitAt(a', p) {
      VariedAllLocal(a, b, i, vfs, rnds, p);
    }
    hide Cleared;
    SameOutside(a', b', o);
  }

  /** Frames that agree outside two bytes differ by a splice. */
  lemma SameOutside(a: seq<byte>, b: seq<byte>, o: nat)
    requires |a| == |b| && o + 2 <= |a|
    requires forall p {:trigger BitAt(b, p)} :: 0 <= p < 8 * |b| && !InField(o, p) ==> BitAt(b, p) == BitAt(a, p)
    ensures b == a[..o] + b[o..o + 2] + a[o + 2..]
  {
    hide BitAt;
    var c := a[..o] + b[o..o + 2] + a[o + 2..];
    assert a[o + |b[o..o + 2]|..] == a[o + 2..];
    forall p | 0 <= p < 8 * |b| ensures BitAt(b, p) == BitAt(c, p) {
      SpliceBit(a, o, b[o..o + 2], p);
      if InField(o, p) { BitShifted(b, o, 2, p - 8 * o); }
    }
    SameBytes(b, c);
  }

  lemma ZeroBit(q: nat)
    requires q < 16
    ensures !BitAt([0, 0], q)
  {
    BitZero(7 - q % 8);
  }

  /** The frame with its checksum is the zeroed frame with the checksum written over it. */
  lemma CksumSpliced(fields: seq<Field>, k: nat, vfs: seq<VariableField>, rnds: seq<nat>, rnds': seq<nat>, i: nat)
    requires AllEncoded(fields) && HasCksum(fields, k) && LayoutOk(Sizes(fields))
    requires Countable(vfs) && NoRandom(vfs) && |rnds| == |rnds'| == |vfs|
    requires Spared(vfs, (TotalBits(Sizes(fields)) + 7) / 8, CksumAt(fields, k))
    ensures AllEncoded(PreparedAll(fields, true)) && AllEncoded(PreparedAll(fields, false))
    ensures var a, b := FrameValue(fields, vfs, rnds, i, true), FrameValue(fields, vfs, rnds', i, false);
            var o := CksumAt(fields, k);
            && o + 2 <= |a| == |b| == (TotalBits(Sizes(fields)) + 7) / 8
            && a[o..o + 2] == [0, 0]
            && b == a[..o] + fields[k].value + a[o + 2..]
  {
    hide BitAt, VariedAll, Masked, Packed, TotalBits, LayoutOk;
    PreparedEncoded(fields, true);
    PreparedEncoded(fields, false);
    assert PreparedAll(fields, false) == fields;
    FrameSizeIsLength(fields, true);
    PackedPair(fields, k);
    PackedValue(fields, k);
    var a, b := Packed(PreparedAll(fields, true)).proto, Packed(fields).proto;
    VariedPair(a, b, CksumAt(fields, k), vfs, rnds, i);
    VariedAllRepeats(b, i, i, vfs, rnds, rnds');
  }

  /** The same where the frame packed for the checksum had any value in the field. */
  lemma CksumInPlace(fields: seq<Field>, zeroed: seq<Field>, k: nat, vfs: seq<VariableField>, rnds: seq<nat>,
                     rnds': seq<nat>, i: nat)
    requires AllEncoded(fields) && HasCksum(fields, k) && LayoutOk(Sizes(fields))
    requires |zeroed| == |fields| && PreparedAll(zeroed, true) == PreparedAll(fields, true)
    requires Countable(vfs) && NoRandom(vfs) && |rnds| == |rnds'| == |vfs|
    requires Spared(vfs, (TotalBits(Sizes(fields)) + 7) / 8, CksumAt(fields, k))
    ensures AllEncoded(PreparedAll(zeroed, true)) && AllEncoded(PreparedAll(fields, false))
    ensures var (a, b) := (FrameValue(zeroed, vfs, rnds, i, true), FrameValue(fields, vfs, rnds', i, false));
            var o := CksumAt(fields, k);
            && o + 2 <= |b| == (TotalBits(Sizes(fields)) + 7) / 8
            && b[o..o + 2] == fields[k].value
            && b[..o] + [0, 0] + b[o + 2..] == a
  {
    hide VariedAll, Packed, Masked, TotalBits, LayoutOk;
    CksumSpliced(fields, k, vfs, rnds, rnds', i);
    var a := FrameValue(zeroed, vfs, rnds, i, true);
    assert a == FrameValue(fields, vfs, rnds, i, true);
    Unspliced(a, FrameValue(fields, vfs, rnds', i, false), CksumAt(fields, k), fields[k].value);
  }

  lemma Unspliced(a: seq<byte>, b: seq<byte>, o: nat, v: seq<byte>)
    requires o + 2 <= |a| && |v| == 2 && a[o..o + 2] == [0, 0] && b == a[..o] + v + a[o + 2..]
    ensures |b| == |a| && b[o..o + 2] == v && b[..o] + [0, 0] + b[o + 2..] == a
  {
    assert a == a[..o] + a[o..o + 2] + a[o + 2..];
  }
}
