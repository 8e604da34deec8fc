/**
 The packer is exact on a layout, for all field contents, if and only if the layout
 keeps to `LayoutOk`.

 For the "only if" part a probe is packed: every field zero except the first one whose
 position breaks the rule, which is all ones.
 */
module PackingExact {
  import opened Bits
  import opened Bytes
  import opened FrameBuilder
  import opened Packing

  ghost predicate PacksExactly(sizes: seq<nat>) {
    forall fs: seq<Field> :: AllEncoded(fs) && Sizes(fs) == sizes ==> Represents(Packed(fs).proto, Concat(fs))
  }

  /** The first field whose position the packer cannot handle. */
  lemma {:induction false} FirstBadField(sizes: seq<nat>) returns (k: nat)
    requires !LayoutOk(sizes)
    ensures k < |sizes| && LayoutOk(sizes[..k]) && !StepOk(TotalBits(sizes[..k]) % 8, sizes[k])
  {
    var init := sizes[..|sizes| - 1];
    if LayoutOk(init) {
      k := |sizes| - 1;
    } else {
      k := FirstBadField(init);
      assert init[..k] == sizes[..k];
    }
  }

  // ------- the probe -------

  function Filled(n: nat, b: byte): (s: seq<byte>)
    ensures |s| == n && forall i :: 0 <= i < n ==> s[i] == b
  {
    seq(n, _ => b)
  }

  function ProbeField(bits: nat, ones: bool): Field {
    Field(true, false, bits, Filled((bits + 7) / 8, if ones then 0xFF else 0))
  }

  function Probe(sizes: seq<nat>, k: nat): (fs: seq<Field>)
    ensures |fs| == |sizes| && forall i :: 0 <= i < |fs| ==> fs[i] == ProbeField(sizes[i], i == k)
    ensures AllEncoded(fs) && Sizes(fs) == sizes
  {
    seq(|sizes|, i requires 0 <= i < |sizes| => ProbeField(sizes[i], i == k))
  }

  lemma ZeroByte(x: byte, v: nat)
    ensures ByteOr(x, 0) == x && ByteShl(0, v) == 0 && ByteShr(0, v) == 0
  {
    forall k | 0 <= k < 8 ensures Msb(ByteOr(x, 0), k) == Msb(x, k) {
      MsbOr(x, 0, k);
      BitZero(7 - k);
    }
    SameByte(ByteOr(x, 0), x);
    assert Pow2(8) == 0x100;
    assert Shl(0, v) == 0;
  }

  lemma OnesBit(k: nat)
    requires k < 8
    ensures Msb(0xFF, k)
  {
    assert Pow2(8) == 0x100;
    BitNot(0, 8, 7 - k);
    BitZero(7 - k);
  }

  predicate AllZero(c: seq<byte>) { forall j :: 0 <= j < |c| ==> c[j] == 0 }

  lemma ZeroChunks(value: seq<byte>, v: nat)
    requires v < 8 && AllZero(value)
    ensures AllZero(Chunks(value, v))
  {
    forall j | 0 <= j < |value| ensures Chunk(value, v, j) == 0 {
      ZeroByte(0, v);
      ZeroByte(0, 8 - v);
    }
  }

  /** A zero field behind anything only lengthens the buffer by zero bytes. */
  lemma ZeroStep(st: Packer, bits: nat) returns (n: nat)
    requires st.lastbitpos < 8 && (st.lastbitpos > 0 ==> st.proto != [])
    ensures PackField(st, ProbeField(bits, false)).proto == st.proto + Zeros(n)
  {
    var f := ProbeField(bits, false);
    var (proto, pos, m) := (st.proto, st.lastbitpos, |f.value|);
    if bits == 0 {
      n := 0;
      assert proto + Zeros(0) == proto;
    } else {
      assert AllZero(f.value) && f.value != [];
      hide AddWhole, AddPartial, Chunks, Zeros, AllZero;
      if bits == 8 * m {
        n := m;
        ZeroWhole(proto, f.value, pos);
      } else {
        n := if pos == 0 then m else m - 1;
        ZeroChunks(f.value, 8 * m - bits);
        ZeroPartial(proto, Chunks(f.value, 8 * m - bits), pos);
      }
    }
  }

  lemma ZerosOf(c: seq<byte>)
    requires AllZero(c)
    ensures c == Zeros(|c|)
  {
  }

  lemma ZeroPartial(proto: seq<byte>, c: seq<byte>, pos: nat)
    requires c != [] && pos < 8 && (pos > 0 ==> proto != []) && AllZero(c)
    ensures AddPartial(proto, pos, c) == proto + Zeros(if pos == 0 then |c| else |c| - 1)
  {
    hide Weave, AllZero, Zeros;
    if pos == 0 { ZerosOf(c); } else { ZeroWeave(proto, c, pos, 8 - pos); }
  }

  lemma ZeroWhole(proto: seq<byte>, c: seq<byte>, pos: nat)
    requires c != [] && pos < 8 && (pos > 0 ==> proto != []) && AllZero(c)
    ensures AddWhole(proto, pos, c) == proto + Zeros(|c|)
  {
    if pos == 0 {
      ZerosOf(c);
    } else {
      assert c[|c| - 1] == 0;
      hide Weave, AllZero;
      ZeroWeave(proto, c, pos, pos);
      ZeroByte(0, pos);
      MoreZeros(proto, |c| - 1, 1);
      assert Zeros(1) == [0];
    }
  }

  lemma ZeroWeave(proto: seq<byte>, c: seq<byte>, pos: nat, back: nat)
    requires proto != [] && c != [] && AllZero(c)
    ensures proto[..|proto| - 1] + Weave(proto[|proto| - 1], c, pos, back) == proto + Zeros(|c| - 1)
  {
    var last := proto[|proto| - 1];
    hide ByteOr, ByteShl, ByteShr;
    forall k | 0 <= k < |c| ensures WeaveByte(last, c, pos, back, k) == if k == 0 then last else 0 {
      ZeroByte(last, pos);
      ZeroByte(0, back);
      ZeroByte(0, pos);
    }
    assert Weave(last, c, pos, back) == [last] + Zeros(|c| - 1);
  }

  lemma MoreZeros(proto: seq<byte>, m: nat, n: nat)
    ensures proto + Zeros(m) + Zeros(n) == proto + Zeros(m + n)
  {
  }

  /** The fields after number `k` of the probe leave the bytes written so far alone. */
  lemma {:induction false} ProbeTail(sizes: seq<nat>, k: nat, j: nat) returns (n: nat)
    requires k < j <= |sizes|
    ensures Packed(Probe(sizes, k)[..j]).proto == Packed(Probe(sizes, k)[..k + 1]).proto + Zeros(n)
  {
    hide PackField, Packed, ProbeField, Concat, FieldBits;
    var fs := Probe(sizes, k);
    if j == k + 1 {
      n := 0;
      assert Packed(fs[..j]).proto + Zeros(0) == Packed(fs[..j]).proto;
    } else {
      var n0 := ProbeTail(sizes, k, j - 1);
      PackedMore(fs, j);
      var n1 := ZeroStep(Packed(fs[..j - 1]), sizes[j - 1]);
      n := n0 + n1;
      MoreZeros(Packed(fs[..k + 1]).proto, n0, n1);
    }
  }

  lemma ProbeFieldBits(bits: nat, ones: bool)
    ensures var b := FieldBits(ProbeField(bits, ones));
            |b| == bits && forall t :: 0 <= t < bits ==> b[t] == ones
  {
    var f := ProbeField(bits, ones);
    assert Emitted(f) || bits == 0;
    forall t | 0 <= t < bits ensures FieldBits(f)[t] == ones {
      var i := 8 * |f.value| - f.bits + t;
      assert FieldBits(f)[t] == BitAt(f.value, i);
      if ones { OnesBit(i % 8); } else { BitZero(7 - i % 8); }
    }
  }

  /** `b` is as long as the first `j` fields and has its ones where field `k` lies. */
  ghost predicate OnesAtField(b: seq<bool>, sizes: seq<nat>, j: nat, k: nat)
    requires k < |sizes| && j <= |sizes|
  {
    var start := TotalBits(sizes[..k]);
    && |b| == TotalBits(sizes[..j])
    && forall i :: 0 <= i < |b| ==> b[i] == (start <= i < start + sizes[k])
  }

  lemma OnesAppend(b: seq<bool>, more: seq<bool>, sizes: seq<nat>, j: nat, k: nat)
    requires k < |sizes| && j < |sizes| && OnesAtField(b, sizes, j, k)
    requires |more| == sizes[j] && forall t :: 0 <= t < |more| ==> more[t] == (j == k)
    ensures OnesAtField(b + more, sizes, j + 1, k)
  {
    assert sizes[..j + 1][..j] == sizes[..j];
    TotalMonotone(sizes, j, k);
    TotalMonotone(sizes, k, j);
  }

  lemma ProbeNothing(sizes: seq<nat>, k: nat)
    requires k < |sizes|
    ensures OnesAtField(Concat(Probe(sizes, k)[..0]), sizes, 0, k)
  {
    assert Probe(sizes, k)[..0] == [] && sizes[..0] == [];
  }

  lemma {:induction false} ProbeConcat(sizes: seq<nat>, k: nat, j: nat)
    requires k < |sizes| && j <= |sizes|
    ensures OnesAtField(Concat(Probe(sizes, k)[..j]), sizes, j, k)
  {
    hide Concat, FieldBits, ProbeField, OnesAtField, SizeOf, Sizes, Encoded;
    var fs := Probe(sizes, k);
    if j == 0 {
      ProbeNothing(sizes, k);
    } else {
      assert fs[j - 1] == ProbeField(sizes[j - 1], j - 1 == k);
      ProbeConcat(sizes, k, j - 1);
      ConcatMore(fs, j);
      ProbeFieldBits(sizes[j - 1], j - 1 == k);
      OnesAppend(Concat(fs[..j - 1]), FieldBits(fs[j - 1]), sizes, j - 1, k);
    }
  }

  lemma ShiftedOnes(pos: nat, k: nat)
    requires k < 8
    ensures Msb(ByteShl(0xFF, pos), k) == (k + pos < 8)
  {
    hide ByteShl, Msb;
    MsbShl(0xFF, pos, k);
    if k + pos < 8 { OnesBit(k + pos); }
  }

  lemma BitIn(r: seq<byte>, j: nat, k: nat)
    requires j < |r| && k < 8
    ensures BitAt(r, 8 * j + k) == Msb(r[j], k)
  {
  }

  /** The bit on which buffer and bit string of the probe part, for a field of whole bytes. */
  lemma BadWhole(proto: seq<byte>, pos: nat, m: nat) returns (i: nat)
    requires 0 < pos < 8 && pos != 4 && proto != [] && m > 0
    ensures var r := AddWhole(proto, pos, Filled(m, 0xFF));
            var end := 8 * (|proto| - 1) + pos + 8 * m;
            |r| == |proto| + m && 8 * (|proto| - 1 + m) <= i < 8 * |r| && BitAt(r, i) != (i < end)
  {
    var (n, k) := (|proto|, if pos < 4 then pos else 8 - pos);
    var r := AddWhole(proto, pos, Filled(m, 0xFF));
    i := 8 * (n - 1 + m) + k;
    assert r[n - 1 + m] == ByteShl(0xFF, pos);
    assert |r| == n + m;
    hide AddWhole, ByteShl, BitAt, Msb;
    ShiftedOnes(pos, k);
    BitIn(r, n - 1 + m, k);
  }

  lemma PartialLength(proto: seq<byte>, pos: nat, c: seq<byte>)
    requires 0 < pos < 8 && proto != []
    ensures |AddPartial(proto, pos, c)| == |proto| - 1 + |c|
  {
  }

  /** The bit on which buffer and bit string of the probe part. */
  lemma BadBit(proto: seq<byte>, pos: nat, bits: nat) returns (i: nat)
    requires 0 < pos < 8 && proto != [] && !StepOk(pos, bits)
    ensures var r := PackField(Packer(proto, pos), ProbeField(bits, true)).proto;
            var start := 8 * (|proto| - 1) + pos;
            && start <= i
            && (i < 8 * |r| && BitAt(r, i)) != (i < start + bits)
            && i < 8 * ((start + bits + 7) / 8)
  {
    hide AddWhole, AddPartial, Weave, BitAt, Chunks;
    var m := |ProbeField(bits, true).value|;
    if bits % 8 == 0 {
      assert bits == 8 * m;
      assert PackField(Packer(proto, pos), ProbeField(bits, true)).proto == AddWhole(proto, pos, Filled(m, 0xFF));
      i := BadWhole(proto, pos, m);
    } else {
      i := 8 * (|proto| - 1 + m);
      assert 8 * m > bits && pos + bits % 8 > 8;
      PartialLength(proto, pos, Chunks(ProbeField(bits, true).value, 8 * m - bits));
    }
  }

  /** The packed buffer of a layout whose next field breaks the rule ends inside a byte. */
  lemma EndsInside(fs: seq<Field>, bits: nat)
    requires AllEncoded(fs) && LayoutOk(Sizes(fs)) && !StepOk(TotalBits(Sizes(fs)) % 8, bits)
    ensures var st := Packed(fs);
            && 0 < st.lastbitpos && st.proto != [] && !StepOk(st.lastbitpos, bits)
            && TotalBits(Sizes(fs)) == 8 * (|st.proto| - 1) + st.lastbitpos
  {
    hide Packed, LayoutOk, TotalBits, Sizes;
    PackedEnds(fs);
  }

  /** The buffer just before and just after the field that breaks the rule. */
  lemma ProbeHead(sizes: seq<nat>, k: nat) returns (proto: seq<byte>, pos: nat)
    requires k < |sizes| && LayoutOk(sizes[..k]) && !StepOk(TotalBits(sizes[..k]) % 8, sizes[k])
    ensures 0 < pos < 8 && proto != [] && !StepOk(pos, sizes[k])
    ensures TotalBits(sizes[..k]) == 8 * (|proto| - 1) + pos
    ensures Packed(Probe(sizes, k)[..k + 1]).proto
         == PackField(Packer(proto, pos), ProbeField(sizes[k], true)).proto
  {
    var fs := Probe(sizes, k);
    assert fs[k] == ProbeField(sizes[k], true);
    assert Sizes(fs[..k]) == sizes[..k];
    hide PackField, Packed, LayoutOk, TotalBits, StepOk, Sizes, SizeOf, ProbeField, Encoded;
    EndsInside(fs[..k], sizes[k]);
    PackedMore(fs, k + 1);
    proto, pos := Packed(fs[..k]).proto, Packed(fs[..k]).lastbitpos;
  }

  lemma NotRepresented(proto: seq<byte>, r: seq<byte>, n: nat, b: seq<bool>, i: nat)
    requires proto == r + Zeros(n) && Differ(r, b, i)
    ensures !Represents(proto, b)
  {
    if Represents(proto, b) {
      BitInFront(r, Zeros(n), i);
      if i >= 8 * |r| { BitZero(7 - (i - 8 * |r|) % 8); }
      assert false;
    }
  }

  /** A bit on which the bytes up to field `k` and the bit string differ. */
  lemma ProbeMismatch(sizes: seq<nat>, k: nat, b: seq<bool>) returns (i: nat)
    requires k < |sizes| && LayoutOk(sizes[..k]) && !StepOk(TotalBits(sizes[..k]) % 8, sizes[k])
    requires OnesAtField(b, sizes, |sizes|, k)
    ensures Differ(Packed(Probe(sizes, k)[..k + 1]).proto, b, i)
  {
    var proto, pos := ProbeHead(sizes, k);
    TotalMonotone(sizes, |sizes|, k);
    i := FromBadBit(proto, pos, sizes[k], TotalBits(sizes[..k]), b);
  }

  predicate Differ(r: seq<byte>, b: seq<bool>, i: nat) {
    i < 8 * ((|b| + 7) / 8) && (i < 8 * |r| && BitAt(r, i)) != (i < |b| && b[i])
  }

  lemma FromBadBit(proto: seq<byte>, pos: nat, bits: nat, start: nat, b: seq<bool>) returns (i: nat)
    requires 0 < pos < 8 && proto != [] && !StepOk(pos, bits) && start == 8 * (|proto| - 1) + pos
    requires start + bits <= |b| && forall i :: 0 <= i < |b| ==> b[i] == (start <= i < start + bits)
    ensures Differ(PackField(Packer(proto, pos), ProbeField(bits, true)).proto, b, i)
  {
    i := BadBit(proto, pos, bits);
  }

  lemma ProbeFails(sizes: seq<nat>) returns (fs: seq<Field>)
    requires !LayoutOk(sizes)
    ensures AllEncoded(fs) && Sizes(fs) == sizes
    ensures !Represents(Packed(fs).proto, Concat(fs))
  {
    var k := FirstBadField(sizes);
    fs := Probe(sizes, k);
    assert fs[..|sizes|] == fs;
    ProbeConcat(sizes, k, |sizes|);
    var i := ProbeMismatch(sizes, k, Concat(fs));
    var n := ProbeTail(sizes, k, |sizes|);
    NotRepresented(Packed(fs).proto, Packed(fs[..k + 1]).proto, n, Concat(fs), i);
  }

  lemma PacksExactlyIff(sizes: seq<nat>)
    ensures PacksExactly(sizes) <==> LayoutOk(sizes)
  {
    if LayoutOk(sizes) {
      forall fs: seq<Field> | AllEncoded(fs) && Sizes(fs) == sizes
        ensures Represents(Packed(fs).proto, Concat(fs))
      {
        PackedRepresents(fs);
      }
    } else {
      var fs := ProbeFails(sizes);
    }
  }
}
