/**
 A combined protocol: its fields are those of its left half followed by those of its right
 half, packed in one go.
 */
module Combo {
  import opened Bytes
  import opened FrameBuilder
  import opened Packing

  /** Packing one more field touches nothing before the last byte. */
  lemma PackBehind(front: seq<byte>, st: Packer, f: Field)
    requires Encoded(f)
    requires st.lastbitpos < 8 && (st.lastbitpos > 0 ==> st.proto != [])
    ensures var r := PackField(st, f);
            PackField(Packer(front + st.proto, st.lastbitpos), f) == Packer(front + r.proto, r.lastbitpos)
  {
    hide AddWhole, AddPartial, Chunks;
    if Emitted(f) {
      if f.bits == 8 * |f.value| {
        WholeBehind(front, st.proto, st.lastbitpos, f.value);
      } else {
        PartialBehind(front, st.proto, st.lastbitpos, Chunks(f.value, 8 * |f.value| - f.bits));
      }
    }
  }

  lemma LastBehind(front: seq<byte>, proto: seq<byte>)
    requires proto != []
    ensures (front + proto)[..|front + proto| - 1] == front + proto[..|proto| - 1]
    ensures (front + proto)[|front + proto| - 1] == proto[|proto| - 1]
  {
  }

  lemma Regroup(a: seq<byte>, b: seq<byte>, c: seq<byte>)
    ensures (a + b) + c == a + (b + c)
  {
  }

  lemma WholeBehind(front: seq<byte>, proto: seq<byte>, pos: nat, field: seq<byte>)
    requires field != [] && (pos > 0 ==> proto != [])
    ensures AddWhole(front + proto, pos, field) == front + AddWhole(proto, pos, field)
  {
    hide Weave, ByteShl;
    if pos == 0 {
      Regroup(front, proto, field);
    } else {
      LastBehind(front, proto);
      var w := Weave(proto[|proto| - 1], field, pos, pos);
      Regroup(front, proto[..|proto| - 1], w);
      Regroup(front, proto[..|proto| - 1] + w, [ByteShl(field[|field| - 1], pos)]);
    }
  }

  lemma PartialBehind(front: seq<byte>, proto: seq<byte>, pos: nat, c: seq<byte>)
    requires pos < 8 && (pos > 0 ==> proto != [])
    ensures AddPartial(front + proto, pos, c) == front + AddPartial(proto, pos, c)
  {
    hide Weave;
    if pos == 0 {
      Regroup(front, proto, c);
    } else {
      LastBehind(front, proto);
      Regroup(front, proto[..|proto| - 1], Weave(proto[|proto| - 1], c, pos, 8 - pos));
    }
  }

  lemma {:induction false} PackedAfter(a: seq<Field>, b: seq<Field>)
    requires AllEncoded(a) && AllEncoded(b) && Packed(a).lastbitpos == 0
    ensures Packed(a + b) == Packer(Packed(a).proto + Packed(b).proto, Packed(b).lastbitpos)
    decreases |b|
  {
    hide PackField;
    if b == [] {
      assert a + b == a;
      assert Packed(a).proto + [] == Packed(a).proto;
    } else {
      var n := |b| - 1;
      PackedAfter(a, b[..n]);
      assert (a + b)[..|a + b| - 1] == a + b[..n];
      PackBehind(Packed(a).proto, Packed(b[..n]), b[n]);
    }
  }

  lemma {:induction false} Position(fs: seq<Field>)
    requires AllEncoded(fs)
    ensures Packed(fs).lastbitpos == TotalBits(Sizes(fs)) % 8
  {
    hide PackField;
    if fs != [] {
      var n := |fs| - 1;
      Position(fs[..n]);
      assert Sizes(fs)[..n] == Sizes(fs[..n]);
      StepPosition(Packed(fs[..n]), fs[n], TotalBits(Sizes(fs[..n])));
    }
  }

  /** When the left half is whole bytes the frame of a combined protocol is that of its left
      half followed by that of its right half, for any layouts and contents. */
  lemma ComboPacks(a: seq<Field>, b: seq<Field>)
    requires AllEncoded(a) && AllEncoded(b) && TotalBits(Sizes(a)) % 8 == 0
    ensures Packed(a + b).proto == Packed(a).proto + Packed(b).proto
  {
    Position(a);
    PackedAfter(a, b);
  }
}
