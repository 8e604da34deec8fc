/**
 Variable fields: masked counters written over the packed frame, a different value for
 each frame, and the offset, type and mask that the editor computes for a standard field.
 */
module VariableFields {
  import opened Unsigned
  import opened Bits
  import opened Bytes
  import opened FrameBuilder
  import opened Packing

  datatype CounterType = Counter8 | Counter16 | Counter32

  datatype Mode = Increment | Decrement | Random

  datatype VariableField = VariableField(
    ctype: CounterType, offset: uint32, mask: uint32, value: uint32,
    mode: Mode, count: uint32, step: uint32)

  /** The size of a counter in bytes. */
  function Width(t: CounterType): nat {
    match t
    case Counter8 => 1
    case Counter16 => 2
    case Counter32 => 4
  }

  /** The counter of a frame, in 32-bit unsigned arithmetic; `rnd` is the next random number. */
  function CounterValue(vf: VariableField, frameIndex: nat, rnd: nat): uint32
    requires vf.count > 0
  {
    var x := ((frameIndex % vf.count) * vf.step) % 0x1_0000_0000;
    match vf.mode
    case Increment => (vf.value + x) % 0x1_0000_0000
    case Decrement => (vf.value + 0x1_0000_0000 - x) % 0x1_0000_0000
    case Random => (vf.value + rnd) % 0x1_0000_0000
  }

  /** The masked bits of `v` put over those of `old`. */
  function Overlay(oldfv: nat, mask: uint32, v: nat): nat {
    Pow2Values();
    Or(And(oldfv, Not(mask, 32)), And(v, mask))
  }

  function Varied(s: seq<byte>, frameIndex: nat, vf: VariableField, rnd: nat): (r: seq<byte>)
    requires vf.count > 0
    ensures |r| == |s|
  {
    var o, w := vf.offset, Width(vf.ctype);
    if o + w > |s| then s
    else
      s[..o] + ToBe(Overlay(FromBe(s[o..o + w]), vf.mask, CounterValue(vf, frameIndex, rnd)), w) + s[o + w..]
  }

  method NextCounter(vf: VariableField, frameIndex: nat, rnd: nat) returns (counter: uint32)
    requires vf.count > 0
    ensures counter == CounterValue(vf, frameIndex, rnd)
  {
    var x := ((frameIndex % vf.count) * vf.step) % 0x1_0000_0000;
    match vf.mode {
      case Increment => counter := (vf.value + x) % 0x1_0000_0000;
      case Decrement => counter := (vf.value + 0x1_0000_0000 - x) % 0x1_0000_0000;
      case Random => counter := (vf.value + rnd) % 0x1_0000_0000;
    }
  }

  method VaryCounter(buf: array<byte>, frameIndex: nat, vf: VariableField, rnd: nat) returns (ok: bool)
    requires vf.count > 0
    modifies buf
    ensures ok == (vf.offset + Width(vf.ctype) <= buf.Length)
    ensures buf[..] == Varied(old(buf[..]), frameIndex, vf, rnd)
  {
    hide Overlay, FromBe, ToBe, CounterValue;
    var size := Width(vf.ctype);
    if vf.offset + size > buf.Length { return false; }
    var oldfv := FromBe(buf[vf.offset..vf.offset + size]);
    var counter := NextCounter(vf, frameIndex, rnd);
    var newfv := ToBe(Overlay(oldfv, vf.mask, counter), size);
    for j := 0 to size
      invariant forall k :: 0 <= k < buf.Length ==>
          buf[k] == if vf.offset <= k < vf.offset + j then newfv[k - vf.offset] else old(buf[k])
    {
      buf[vf.offset + j] := newfv[j];
    }
    return true;
  }

  // ------- all the variable fields of a protocol -------

  predicate Countable(vfs: seq<VariableField>) { forall k :: 0 <= k < |vfs| ==> vfs[k].count > 0 }

  function VariedAll(s: seq<byte>, frameIndex: nat, vfs: seq<VariableField>, rnds: seq<nat>): (r: seq<byte>)
    requires Countable(vfs) && |rnds| == |vfs|
    ensures |r| == |s|
  {
    if vfs == [] then s
    else
      var n := |vfs| - 1;
      Varied(VariedAll(s, frameIndex, vfs[..n], rnds[..n]), frameIndex, vfs[n], rnds[n])
  }

  function FrameValue(fields: seq<Field>, vfs: seq<VariableField>, rnds: seq<nat>,
                      streamIndex: nat, forCksum: bool): seq<byte>
    requires AllEncoded(PreparedAll(fields, forCksum)) && Countable(vfs) && |rnds| == |vfs|
  {
    VariedAll(Packed(PreparedAll(fields, forCksum)).proto, streamIndex, vfs, rnds)
  }

  /** protocolFrameValue: pack the fields, then write the variable fields over them in place.
      `rnds` are the random numbers drawn, one for each variable field. */
  method ProtocolFrameValue(fields: seq<Field>, vfs: seq<VariableField>, rnds: seq<nat>,
                            streamIndex: nat, forCksum: bool) returns (proto: seq<byte>)
    requires AllEncoded(PreparedAll(fields, forCksum)) && Countable(vfs) && |rnds| == |vfs|
    ensures proto == FrameValue(fields, vfs, rnds, streamIndex, forCksum)
  {
    var packed := PackFields(fields, forCksum);
    var buf := new byte[|packed|](i requires 0 <= i < |packed| => packed[i]);
    assert buf[..] == packed;
    for i := 0 to |vfs|
      invariant buf[..] == VariedAll(packed, streamIndex, vfs[..i], rnds[..i])
    {
      assert vfs[..i + 1][..i] == vfs[..i] && rnds[..i + 1][..i] == rnds[..i];
      var _ := VaryCounter(buf, streamIndex, vfs[i], rnds[i]);
    }
    assert vfs[..|vfs|] == vfs && rnds[..|vfs|] == rnds;
    proto := buf[..];
  }

  // ------- which bits a variable field writes -------

  /** Bit `p` of a frame of `n` bytes is under the mask of `vf`. */
  predicate Masked(vf: VariableField, n: nat, p: nat) {
    var w := Width(vf.ctype);
    && vf.offset + w <= n
    && 8 * vf.offset <= p < 8 * (vf.offset + w)
    && Bit(vf.mask, 8 * (vf.offset + w) - 1 - p)
  }

  lemma OverlayBit(oldfv: nat, mask: uint32, v: nat, i: nat)
    requires i < 32
    ensures Bit(Overlay(oldfv, mask, v), i) == if Bit(mask, i) then Bit(v, i) else Bit(oldfv, i)
  {
    Pow2Values();
    BitOr(And(oldfv, Not(mask, 32)), And(v, mask), i);
    BitAnd(oldfv, Not(mask, 32), i);
    BitAnd(v, mask, i);
    BitNot(mask, 32, i);
  }

  lemma BitToBe(x: nat, n: nat, p: nat)
    requires p < 8 * n
    ensures BitAt(ToBe(x, n), p) == Bit(x, 8 * n - 1 - p)
  {
    BitFromBe(ToBe(x, n), 8 * n - 1 - p);
    FromToBe(x, n);
    BitLow(x, 8 * n, 8 * n - 1 - p);
  }

  /** Replacing `w` bytes at `o`, bit by bit. */
  lemma SpliceBit(s: seq<byte>, o: nat, mid: seq<byte>, p: nat)
    requires o + |mid| <= |s| && p < 8 * |s|
    ensures BitAt(s[..o] + mid + s[o + |mid|..], p)
         == if 8 * o <= p < 8 * (o + |mid|) then BitAt(mid, p - 8 * o) else BitAt(s, p)
  {
    var w := |mid|;
    BitInFront(s[..o] + mid, s[o + w..], p);
    if p < 8 * (o + w) {
      BitInFront(s[..o], mid, p);
    } else {
      BitShifted(s, o + w, |s| - o - w, p - 8 * (o + w));
    }
  }

  /** Masked bits come from the counter alone, all others stay as they were. */
  lemma VariedBit(s: seq<byte>, frameIndex: nat, vf: VariableField, rnd: nat, p: nat)
    requires vf.count > 0 && p < 8 * |s|
    ensures BitAt(Varied(s, frameIndex, vf, rnd), p)
         == if Masked(vf, |s|, p)
            then Bit(CounterValue(vf, frameIndex, rnd), 8 * (vf.offset + Width(vf.ctype)) - 1 - p)
            else BitAt(s, p)
  {
    hide Overlay, FromBe, ToBe, Bit, CounterValue, BitAt;
    var o, w := vf.offset, Width(vf.ctype);
    if o + w <= |s| {
      WindowBit(s[o..o + w], vf, CounterValue(vf, frameIndex, rnd), p - 8 * o);
      SpliceBit(s, o, ToBe(Overlay(FromBe(s[o..o + w]), vf.mask, CounterValue(vf, frameIndex, rnd)), w), p);
      if 8 * o <= p < 8 * (o + w) { BitShifted(s, o, w, p - 8 * o); }
    }
  }

  lemma WindowBit(s: seq<byte>, vf: VariableField, v: nat, q: int)
    requires |s| == Width(vf.ctype)
    ensures 0 <= q < 8 * |s| ==>
              var i := 8 * |s| - 1 - q;
              BitAt(ToBe(Overlay(FromBe(s), vf.mask, v), |s|), q)
                == if Bit(vf.mask, i) then Bit(v, i) else BitAt(s, q)
  {
    if 0 <= q < 8 * |s| {
      var i := 8 * |s| - 1 - q;
      BitToBe(Overlay(FromBe(s), vf.mask, v), |s|, q);
      OverlayBit(FromBe(s), vf.mask, v, i);
      BitFromBe(s, i);
    }
  }

  lemma BitShifted(s: seq<byte>, o: nat, w: nat, q: nat)
    requires o + w <= |s| && q < 8 * w
    ensures BitAt(s[o..o + w], q) == BitAt(s, 8 * o + q)
  {
    assert (8 * o + q) / 8 == o + q / 8 && (8 * o + q) % 8 == q % 8;
  }

  /** A bit of the final frame depends on the packed frame through that bit only. */
  lemma {:induction false} VariedAllLocal(s: seq<byte>, t: seq<byte>, frameIndex: nat, vfs: seq<VariableField>,
      rnds: seq<nat>, p: nat)
    requires Countable(vfs) && |rnds| == |vfs|
    requires |s| == |t| && p < 8 * |s|
    requires BitAt(s, p) == BitAt(t, p)
    ensures BitAt(VariedAll(s, frameIndex, vfs, rnds), p) == BitAt(VariedAll(t, frameIndex, vfs, rnds), p)
  {
    if vfs != [] {
      var n := |vfs| - 1;
      VariedAllLocal(s, t, frameIndex, vfs[..n], rnds[..n], p);
      VariedBit(VariedAll(s, frameIndex, vfs[..n], rnds[..n]), frameIndex, vfs[n], rnds[n], p);
      VariedBit(VariedAll(t, frameIndex, vfs[..n], rnds[..n]), frameIndex, vfs[n], rnds[n], p);
    }
  }

  /** A bit under no mask reaches the final frame as it was packed. */
  lemma {:induction false} VariedAllUnmasked(s: seq<byte>, frameIndex: nat, vfs: seq<VariableField>, rnds: seq<nat>,
      p: nat)
    requires Countable(vfs) && |rnds| == |vfs| && p < 8 * |s|
    requires forall k :: 0 <= k < |vfs| ==> !Masked(vfs[k], |s|, p)
    ensures BitAt(VariedAll(s, frameIndex, vfs, rnds), p) == BitAt(s, p)
  {
    if vfs != [] {
      var n := |vfs| - 1;
      VariedAllUnmasked(s, frameIndex, vfs[..n], rnds[..n], p);
      VariedBit(VariedAll(s, frameIndex, vfs[..n], rnds[..n]), frameIndex, vfs[n], rnds[n], p);
    }
  }

  /** One counter follows another by the step, up or down, in 32 bits. */
  predicate OneStep(mode: Mode, step: uint32, now: uint32, next: uint32) {
    if mode == Increment then next == (now + step) % 0x1_0000_0000 else (next + step) % 0x1_0000_0000 == now
  }

  /** The counter starts at the field's value at every multiple of the count, and from there
      goes up or down by the step from frame to frame; a random one is as far from that value
      as the random number says. */
  lemma CounterSteps(vf: VariableField, i: nat, rnd: nat, rnd': nat)
    requires vf.count > 0
    ensures vf.mode != Random && i % vf.count == 0 ==> CounterValue(vf, i, rnd) == vf.value
    ensures vf.mode != Random && (i + 1) % vf.count != 0 ==>
              OneStep(vf.mode, vf.step, CounterValue(vf, i, rnd), CounterValue(vf, i + 1, rnd'))
    ensures vf.mode == Random ==> (CounterValue(vf, i, rnd) - vf.value - rnd) % 0x1_0000_0000 == 0
  {
    hide CounterValue, CounterAt, OneStep;
    if vf.mode == Random {
      CounterRandom(vf, i, rnd);
    } else {
      CounterStarts(vf, i, rnd, rnd');
    }
  }

  lemma CounterRandom(vf: VariableField, i: nat, rnd: nat)
    requires vf.count > 0 && vf.mode == Random
    ensures (CounterValue(vf, i, rnd) - vf.value - rnd) % 0x1_0000_0000 == 0
  {
    var q := (vf.value + rnd) / 0x1_0000_0000;
    assert CounterValue(vf, i, rnd) - vf.value - rnd == 0x1_0000_0000 * -q;
  }

  lemma CounterStarts(vf: VariableField, i: nat, rnd: nat, rnd': nat)
    requires vf.count > 0 && vf.mode != Random
    ensures i % vf.count == 0 ==> CounterValue(vf, i, rnd) == vf.value
    ensures (i + 1) % vf.count != 0 ==>
              OneStep(vf.mode, vf.step, CounterValue(vf, i, rnd), CounterValue(vf, i + 1, rnd'))
  {
    hide CounterValue, CounterAt, OneStep;
    CounterFrom(vf, i, rnd);
    if (i + 1) % vf.count != 0 {
      NextResidue(i, vf.count);
      CounterFrom(vf, i + 1, rnd');
      CounterMoves(vf, i % vf.count);
    }
  }

  function Increased(value: uint32, x: nat): uint32 { (value + x % 0x1_0000_0000) % 0x1_0000_0000 }

  function Decreased(value: uint32, x: nat): uint32 {
    (value + 0x1_0000_0000 - x % 0x1_0000_0000) % 0x1_0000_0000
  }

  function Counted(mode: Mode, value: uint32, x: nat): uint32 {
    if mode == Increment then Increased(value, x) else Decreased(value, x)
  }

  function CounterAt(vf: VariableField, u: nat): uint32 { Counted(vf.mode, vf.value, u * vf.step) }

  lemma CounterFrom(vf: VariableField, i: nat, rnd: nat)
    requires vf.count > 0 && vf.mode != Random
    ensures CounterValue(vf, i, rnd) == CounterAt(vf, i % vf.count)
    ensures i % vf.count == 0 ==> CounterAt(vf, i % vf.count) == vf.value
  {
  }

  lemma CounterMoves(vf: VariableField, u: nat)
    ensures OneStep(vf.mode, vf.step, CounterAt(vf, u), CounterAt(vf, u + 1))
  {
    hide Counted, OneStep;
    OneStepMore(u, vf.step);
    CountedMoves(vf.mode, vf.value, u * vf.step, vf.step);
  }

  lemma CountedMoves(mode: Mode, value: uint32, x: nat, step: uint32)
    ensures OneStep(mode, step, Counted(mode, value, x), Counted(mode, value, x + step))
  {
    hide Increased, Decreased;
    WrapsUp(value, x, step);
    WrapsDown(value, x, step);
  }

  lemma OneStepMore(u: nat, step: nat)
    ensures (u + 1) * step == u * step + step
  {
  }

  lemma NextResidue(i: nat, c: nat)
    requires c > 0 && (i + 1) % c != 0
    ensures (i + 1) % c == i % c + 1
  {
    var q, r := i / c, i % c;
    if r + 1 < c {
      DivUnique(i + 1, c, q, r + 1);
    } else {
      assert (q + 1) * c == q * c + c;
      DivUnique(i + 1, c, q + 1, 0);
    }
  }

  lemma SameWord(p: int, q: int, k: int)
    requires p == q + 0x1_0000_0000 * k
    ensures p % 0x1_0000_0000 == q % 0x1_0000_0000
  {
  }

  lemma WrapsUp(value: uint32, x: nat, step: uint32)
    ensures Increased(value, x + step) == (Increased(value, x) + step) % 0x1_0000_0000
  {
    var now := value + x % 0x1_0000_0000;
    SameWord(value + x + step, value + (x + step) % 0x1_0000_0000, (x + step) / 0x1_0000_0000);
    SameWord(value + x + step, now % 0x1_0000_0000 + step, x / 0x1_0000_0000 + now / 0x1_0000_0000);
  }

  lemma WrapsDown(value: uint32, x: nat, step: uint32)
    ensures (Decreased(value, x + step) + step) % 0x1_0000_0000 == Decreased(value, x)
  {
    var next := value + 0x1_0000_0000 - (x + step) % 0x1_0000_0000;
    SameWord(value - x, value + 0x1_0000_0000 - x % 0x1_0000_0000, -1 - x / 0x1_0000_0000);
    SameWord(value - x, next % 0x1_0000_0000 + step, -1 - (x + step) / 0x1_0000_0000 + next / 0x1_0000_0000);
  }

  predicate NoRandom(vfs: seq<VariableField>) { forall k :: 0 <= k < |vfs| ==> vfs[k].mode != Random }

  /** Without random modes, frames whose indices agree modulo every count vary alike. */
  lemma {:induction false} VariedAllRepeats(s: seq<byte>, i: nat, j: nat, vfs: seq<VariableField>, rnds: seq<nat>,
      rnds': seq<nat>)
    requires Countable(vfs) && NoRandom(vfs) && |rnds| == |rnds'| == |vfs|
    requires forall k :: 0 <= k < |vfs| ==> i % vfs[k].count == j % vfs[k].count
    ensures VariedAll(s, i, vfs, rnds) == VariedAll(s, j, vfs, rnds')
  {
    if vfs != [] {
      var n := |vfs| - 1;
      VariedAllRepeats(s, i, j, vfs[..n], rnds[..n], rnds'[..n]);
      assert CounterValue(vfs[n], i, rnds[n]) == CounterValue(vfs[n], j, rnds'[n]);
    }
  }
}
