/**
 Frames with any number of checksum fields, such as that of a combination of two IP headers: the
 frame that is sent is the zeroed frame with every checksum written into its slot.
 */
module CksumSlots {
  import opened Bits
  import opened Bytes
  import opened FrameBuilder
  import opened Packing
  import opened Checksum
  import opened VariableFields
  import opened CksumField

  datatype Slot = Slot(at: nat, cksum: u16)

  /** The slots are apart, in order, and zero as yet. */
  predicate Fits(z: seq<byte>, slots: seq<Slot>) {
    && (forall i :: 0 <= i < |slots| ==> slots[i].at + 2 <= |z| && z[slots[i].at..slots[i].at + 2] == [0, 0])
    && (forall i, j :: 0 <= i < j < |slots| ==> slots[i].at + 2 <= slots[j].at)
  }

  function Written(z: seq<byte>, slots: seq<Slot>): (s: seq<byte>)
    requires Fits(z, slots)
    ensures |s| == |z|
    ensures slots == [] ==> s == z
  {
    if slots == [] then z
    else
      var n := |slots| - 1;
      var (s, o) := (Written(z, slots[..n]), slots[n].at);
      s[..o] + ToBe(slots[n].cksum, 2) + s[o + 2..]
  }

  lemma FitsBefore(z: seq<byte>, slots: seq<Slot>)
    requires Fits(z, slots) && slots != []
    ensures Fits(z, slots[..|slots| - 1])
  {
  }

  lemma BehindSplice(s: seq<byte>, o: nat, two: seq<byte>, p: nat)
    requires |two| == 2 && o + 2 <= p < |s|
    ensures (s[..o] + two + s[o + 2..])[p] == s[p]
  {
  }

  /** Nothing behind the last slot is touched. */
  lemma {:induction false} WrittenBehind(z: seq<byte>, slots: seq<Slot>, p: nat)
    requires Fits(z, slots) && p < |z|
    requires forall i :: 0 <= i < |slots| ==> slots[i].at + 2 <= p
    ensures Written(z, slots)[p] == z[p]
  {
    if slots != [] {
      var n := |slots| - 1;
      FitsBefore(z, slots);
      hide Fits, ToBe;
      WrittenBehind(z, slots[..n], p);
      BehindSplice(Written(z, slots[..n]), slots[n].at, ToBe(slots[n].cksum, 2), p);
    }
  }

  lemma SamePair(z: seq<byte>, s: seq<byte>, o: nat)
    requires |s| == |z| && o + 2 <= |z| && s[o] == z[o] && s[o + 1] == z[o + 1]
    ensures s[o..o + 2] == z[o..o + 2]
  {
  }

  lemma LastSlot(z: seq<byte>, slots: seq<Slot>)
    requires Fits(z, slots) && slots != []
    ensures var (n, o) := (|slots| - 1, slots[|slots| - 1].at);
            && o + 2 <= |z| && z[o..o + 2] == [0, 0]
            && forall i :: 0 <= i < n ==> slots[..n][i].at + 2 <= o
  {
  }

  /** The last slot is untouched while the ones before it are written. */
  lemma StillZero(z: seq<byte>, slots: seq<Slot>)
    requires Fits(z, slots) && slots != []
    ensures var n := |slots| - 1;
            Fits(z, slots[..n]) && slots[n].at + 2 <= |z|
            && Written(z, slots[..n])[slots[n].at..slots[n].at + 2] == [0, 0]
  {
    hide Written, ToBe, Fits;
    var n := |slots| - 1;
    FitsBefore(z, slots);
    LastSlot(z, slots);
    var o := slots[n].at;
    WrittenBehind(z, slots[..n], o);
    WrittenBehind(z, slots[..n], o + 1);
    SamePair(z, Written(z, slots[..n]), o);
  }

  // ------- where the slots of a frame are -------

  /** Every checksum field has 16 bits and starts on a byte. */
  predicate Slotted(fs: seq<Field>) {
    forall k :: 0 <= k < |fs| && fs[k].isCksum ==>
      fs[k].isFrame && fs[k].bits == 16 && TotalBits(Sizes(fs)[..k]) % 8 == 0
  }

  /** No variable field has a mask over a checksum. */
  predicate AllSpared(vfs: seq<VariableField>, fs: seq<Field>) {
    forall k :: 0 <= k < |fs| && fs[k].isCksum ==> Spared(vfs, (TotalBits(Sizes(fs)) + 7) / 8, CksumAt(fs, k))
  }

  /** The slots of the first `n` fields. */
  function Slots(fs: seq<Field>, n: nat): seq<Slot>
    requires n <= |fs| && AllEncoded(fs) && Slotted(fs)
  {
    if n == 0 then []
    else if fs[n - 1].isCksum then Slots(fs, n - 1) + [SlotOf(fs, n - 1)]
    else Slots(fs, n - 1)
  }

  function SlotOf(fs: seq<Field>, k: nat): Slot
    requires k < |fs| && Encoded(fs[k]) && fs[k].isFrame && fs[k].bits == 16
  {
    FromBeBound(fs[k].value);
    Pow2Values();
    Slot(CksumAt(fs, k), FromBe(fs[k].value))
  }

  lemma {:induction false} SlotsBefore(fs: seq<Field>, n: nat, k: nat)
    requires n <= k < |fs| && AllEncoded(fs) && Slotted(fs) && fs[k].isCksum
    ensures forall j :: 0 <= j < |Slots(fs, n)| ==> Slots(fs, n)[j].at + 2 <= CksumAt(fs, k)
  {
    if n > 0 {
      SlotsBefore(fs, n - 1, k);
      if fs[n - 1].isCksum {
        TotalMonotone(Sizes(fs), k, n - 1);
        assert Sizes(fs)[n - 1] == 16;
      }
    }
  }

  // ------- writing one checksum after the other -------

  /** The first `n` fields as they are sent, the checksums after them still zero. */
  function Stage(fs: seq<Field>, n: nat): (r: seq<Field>)
    ensures |r| == |fs| && forall i :: 0 <= i < |fs| ==> r[i] == StageOf(fs[i], i < n)
  {
    seq(|fs|, i requires 0 <= i < |fs| => StageOf(fs[i], i < n))
  }

  function StageOf(f: Field, sent: bool): Field {
    if f.isCksum then f.(isCksum := false, value := if sent then f.value else Zeros((f.bits + 7) / 8)) else f
  }

  /** The packer looks at no checksum flag. */
  lemma {:induction false} FlagsIgnored(fs: seq<Field>, gs: seq<Field>)
    requires |fs| == |gs| && AllEncoded(fs)
    requires forall i :: 0 <= i < |fs| ==> gs[i] == fs[i].(isCksum := gs[i].isCksum)
    ensures AllEncoded(gs) && Sizes(gs) == Sizes(fs) && Packed(gs) == Packed(fs)
  {
    if fs != [] {
      var n := |fs| - 1;
      FlagsIgnored(fs[..n], gs[..n]);
      OneFlag(Packed(fs[..n]), fs[n], gs[n].isCksum);
      hide PackField;
    }
  }

  lemma OneFlag(st: Packer, f: Field, flag: bool)
    requires Encoded(f) && st.lastbitpos < 8 && (st.lastbitpos > 0 ==> st.proto != [])
    ensures PackField(st, f.(isCksum := flag)) == PackField(st, f)
  {
    hide AddWhole, AddPartial, Chunks;
  }

  lemma StageEncoded(fs: seq<Field>, n: nat)
    requires AllEncoded(fs)
    ensures AllEncoded(Stage(fs, n)) && Sizes(Stage(fs, n)) == Sizes(fs)
  {
  }

  /** The frame of a stage. */
  function Frame(fs: seq<Field>, n: nat, vfs: seq<VariableField>, rnds: seq<nat>, i: nat): seq<byte>
    requires AllEncoded(fs) && Countable(vfs) && |rnds| == |vfs|
  {
    StageEncoded(fs, n);
    VariedAll(Packed(Stage(fs, n)).proto, i, vfs, rnds)
  }

  /** Stage `n` with the flag of field `k` back in its place. */
  function Marked(fs: seq<Field>, n: nat, k: nat): (gs: seq<Field>)
    requires k < |fs|
    ensures |gs| == |fs|
  {
    Stage(fs, n)[k := Stage(fs, n)[k].(isCksum := true)]
  }

  lemma MarkedHas(fs: seq<Field>, n: nat, k: nat)
    requires AllEncoded(fs) && Slotted(fs) && k < |fs| && fs[k].isCksum
    ensures var gs := Marked(fs, n, k); AllEncoded(gs) && Sizes(gs) == Sizes(fs) && HasCksum(gs, k)
  {
    hide TotalBits;
    StageEncoded(fs, n);
    var gs := Marked(fs, n, k);
    forall i | 0 <= i < |gs| ensures SizeOf(gs[i]) == SizeOf(fs[i]) && Encoded(gs[i]) && (i != k ==> !gs[i].isCksum) {
      assert Encoded(Stage(fs, n)[i]);
    }
    assert Sizes(gs) == Sizes(fs);
  }

  /** Zeroing the marked field leads to the stage without it, whether it was sent or not. */
  lemma MarkedPacks(fs: seq<Field>, n: nat, k: nat)
    requires AllEncoded(fs) && Slotted(fs) && k < |fs| && fs[k].isCksum && n <= k + 1
    ensures var gs := Marked(fs, n, k);
            && AllEncoded(gs) && AllEncoded(PreparedAll(gs, true)) && AllEncoded(PreparedAll(gs, false))
            && AllEncoded(Stage(fs, n)) && AllEncoded(Stage(fs, if n <= k then n else k))
            && Packed(PreparedAll(gs, true)) == Packed(Stage(fs, if n <= k then n else k))
            && Packed(PreparedAll(gs, false)) == Packed(Stage(fs, n))
  {
    hide Packed, TotalBits, Sizes;
    var (gs, m) := (Marked(fs, n, k), if n <= k then n else k);
    MarkedHas(fs, n, k);
    StageEncoded(fs, n);
    StageEncoded(fs, m);
    PreparedEncoded(gs, true);
    var zeroed := PreparedAll(gs, true);
    forall i | 0 <= i < |fs|
      ensures zeroed[i] == Stage(fs, m)[i].(isCksum := zeroed[i].isCksum)
      ensures gs[i] == Stage(fs, n)[i].(isCksum := gs[i].isCksum)
    {
      assert zeroed[i] == Prepared(gs[i], true);
    }
    FlagsIgnored(Stage(fs, m), zeroed);
    FlagsIgnored(Stage(fs, n), gs);
    assert PreparedAll(gs, false) == gs;
  }

  /** Sending one checksum more. */
  lemma StageStep(fs: seq<Field>, k: nat, vfs: seq<VariableField>, rnds: seq<nat>, i: nat)
    requires AllEncoded(fs) && Slotted(fs) && LayoutOk(Sizes(fs)) && k < |fs| && fs[k].isCksum
    requires Countable(vfs) && NoRandom(vfs) && |rnds| == |vfs| && AllSpared(vfs, fs)
    ensures var (a, o) := (Frame(fs, k, vfs, rnds, i), CksumAt(fs, k));
            && o + 2 <= |a|
            && Frame(fs, k + 1, vfs, rnds, i) == a[..o] + fs[k].value + a[o + 2..]
  {
    hide Packed, TotalBits, LayoutOk, VariedAll, Sizes, Spared;
    MarkedHas(fs, k + 1, k);
    MarkedPacks(fs, k + 1, k);
    CksumSpliced(Marked(fs, k + 1, k), k, vfs, rnds, rnds, i);
  }

  /** Nothing is in the slots at first. */
  lemma StageZero(fs: seq<Field>, k: nat, vfs: seq<VariableField>, rnds: seq<nat>, i: nat)
    requires AllEncoded(fs) && Slotted(fs) && LayoutOk(Sizes(fs)) && k < |fs| && fs[k].isCksum
    requires Countable(vfs) && NoRandom(vfs) && |rnds| == |vfs| && AllSpared(vfs, fs)
    ensures var (z, o) := (Frame(fs, 0, vfs, rnds, i), CksumAt(fs, k)); o + 2 <= |z| && z[o..o + 2] == [0, 0]
  {
    hide Packed, TotalBits, LayoutOk, VariedAll, Sizes, Spared;
    MarkedHas(fs, 0, k);
    MarkedPacks(fs, 0, k);
    CksumSpliced(Marked(fs, 0, k), k, vfs, rnds, rnds, i);
  }

  lemma StageSame(fs: seq<Field>, k: nat)
    requires k < |fs| && !fs[k].isCksum
    ensures Stage(fs, k + 1) == Stage(fs, k)
  {
  }

  lemma OneSlotMore(z: seq<byte>, slots: seq<Slot>, s: Slot)
    requires Fits(z, slots) && s.at + 2 <= |z| && z[s.at..s.at + 2] == [0, 0]
    requires forall j :: 0 <= j < |slots| ==> slots[j].at + 2 <= s.at
    ensures Fits(z, slots + [s])
    ensures var w := Written(z, slots); Written(z, slots + [s]) == w[..s.at] + ToBe(s.cksum, 2) + w[s.at + 2..]
  {
    assert (slots + [s])[..|slots|] == slots;
    hide ToBe;
  }

  lemma {:induction false} WrittenSoFar(fs: seq<Field>, n: nat, vfs: seq<VariableField>, rnds: seq<nat>, i: nat)
    requires n <= |fs| && AllEncoded(fs) && Slotted(fs) && LayoutOk(Sizes(fs))
    requires Countable(vfs) && NoRandom(vfs) && |rnds| == |vfs| && AllSpared(vfs, fs)
    ensures var z := Frame(fs, 0, vfs, rnds, i);
            Fits(z, Slots(fs, n)) && Written(z, Slots(fs, n)) == Frame(fs, n, vfs, rnds, i)
    decreases n
  {
    hide Fits, Written, Frame, LayoutOk, AllSpared, SlotOf, Stage, CksumAt;
    var z := Frame(fs, 0, vfs, rnds, i);
    if n == 0 {
      NothingWritten(z);
    } else {
      var k := n - 1;
      WrittenSoFar(fs, k, vfs, rnds, i);
      if fs[k].isCksum {
        StageStep(fs, k, vfs, rnds, i);
        StageZero(fs, k, vfs, rnds, i);
        SlotsBefore(fs, k, k);
        SlotOfIs(fs, k);
        OneSlotMore(z, Slots(fs, k), SlotOf(fs, k));
      } else {
        StageSame(fs, k);
        SameFrame(fs, k, vfs, rnds, i);
      }
    }
  }

  lemma NothingWritten(z: seq<byte>)
    ensures Fits(z, []) && Written(z, []) == z
  {
  }

  lemma SameFrame(fs: seq<Field>, k: nat, vfs: seq<VariableField>, rnds: seq<nat>, i: nat)
    requires AllEncoded(fs) && Countable(vfs) && |rnds| == |vfs|
    requires Stage(fs, k + 1) == Stage(fs, k)
    ensures Frame(fs, k + 1, vfs, rnds, i) == Frame(fs, k, vfs, rnds, i)
  {
  }

  lemma SlotOfIs(fs: seq<Field>, k: nat)
    requires k < |fs| && Encoded(fs[k]) && fs[k].isFrame && fs[k].bits == 16
    ensures SlotOf(fs, k).at == CksumAt(fs, k) && ToBe(SlotOf(fs, k).cksum, 2) == fs[k].value
  {
    ToFromBe(fs[k].value);
  }

  /** Whatever the number of its checksum fields, a protocol is sent as its zeroed frame with all
      of the slots written. */
  lemma FrameIsWritten(fs: seq<Field>, vfs: seq<VariableField>, rnds: seq<nat>, rnds': seq<nat>, i: nat)
    requires AllEncoded(fs) && Slotted(fs) && LayoutOk(Sizes(fs))
    requires Countable(vfs) && NoRandom(vfs) && |rnds| == |rnds'| == |vfs| && AllSpared(vfs, fs)
    ensures AllEncoded(PreparedAll(fs, true)) && AllEncoded(PreparedAll(fs, false))
    ensures var (z, slots) := (FrameValue(fs, vfs, rnds, i, true), Slots(fs, |fs|));
            Fits(z, slots) && FrameValue(fs, vfs, rnds', i, false) == Written(z, slots)
  {
    hide Fits, Written, LayoutOk, AllSpared, VariedAll, Packed, Slots;
    PreparedEncoded(fs, true);
    PreparedEncoded(fs, false);
    WrittenSoFar(fs, |fs|, vfs, rnds, i);
    StageEncoded(fs, 0);
    StageEncoded(fs, |fs|);
    EndStages(fs);
    FlagsIgnored(Stage(fs, 0), PreparedAll(fs, true));
    FlagsIgnored(Stage(fs, |fs|), PreparedAll(fs, false));
    VariedAllRepeats(Packed(fs).proto, i, i, vfs, rnds, rnds');
  }

  lemma EndStages(fs: seq<Field>)
    ensures forall j :: 0 <= j < |fs| ==>
              && PreparedAll(fs, true)[j] == Stage(fs, 0)[j].(isCksum := fs[j].isCksum)
              && PreparedAll(fs, false)[j] == Stage(fs, |fs|)[j].(isCksum := fs[j].isCksum)
    ensures PreparedAll(fs, false) == fs
    ensures forall j :: 0 <= j < |fs| ==>
              PreparedAll(fs, true)[j].isCksum == fs[j].isCksum == PreparedAll(fs, false)[j].isCksum
  {
  }

  /** A combination has the slots of both of its halves, when the left one is whole bytes. */
  lemma JoinedSlotted(a: seq<Field>, b: seq<Field>)
    requires Slotted(a) && Slotted(b) && TotalBits(Sizes(a)) % 8 == 0
    ensures Slotted(a + b)
  {
    hide TotalBits, Sizes, SizeOf;
    var (fs, n) := (a + b, |a|);
    SizesJoined(a, b);
    forall k | 0 <= k < |fs| && fs[k].isCksum
      ensures fs[k].isFrame && fs[k].bits == 16 && TotalBits(Sizes(fs)[..k]) % 8 == 0
    {
      if k < n {
        assert fs[k] == a[k] && Sizes(fs)[..k] == Sizes(a)[..k];
      } else {
        assert fs[k] == b[k - n] && Sizes(fs)[..k] == Sizes(a) + Sizes(b)[..k - n];
        TotalJoined(Sizes(a), Sizes(b)[..k - n]);
      }
    }
  }
}
