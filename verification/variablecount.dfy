/**
 How many frames pass before a protocol repeats: the lcm of the counts of its variable
 fields, cached in a 32-bit field that edits keep up to date or invalidate.
 */
module VariableCount {
  import opened Unsigned
  import opened Bits
  import opened Gcd
  import opened Lcm
  import opened VariableFields

  type int32 = x: int | -0x8000_0000 <= x < 0x8000_0000

  /** Conversions between `int` and `quint64`. */
  function ToU64(x: int32): uint64 { if x < 0 then x + 0x1_0000_0000_0000_0000 else x }

  function ToInt(x: uint64): int32 {
    var low := x % 0x1_0000_0000;
    if low < 0x8000_0000 then low else low - 0x1_0000_0000
  }

  /** The least common multiple of all counts, zero read as one. */
  ghost function LcmAll(vfs: seq<VariableField>): (l: nat)
    ensures l > 0
  {
    if vfs == [] then 1
    else
      var n := |vfs| - 1;
      LcmPositive(LcmAll(vfs[..n]), OrOne(vfs[n].count));
      LcmOf(LcmAll(vfs[..n]), OrOne(vfs[n].count))
  }

  lemma LcmPositive(u: nat, v: nat)
    requires u > 0 && v > 0
    ensures LcmOf(u, v) > 0
    ensures u <= LcmOf(u, v) && v <= LcmOf(u, v)
    ensures LcmOf(u, v) <= u * v
  {
    hide GcdOf;
    var l := LcmOf(u, v);
    DividesBy(u, u * v, v);
    DividesBy(v, u * v, u);
    assert Divides(l, u * v);
    assert u * v > 0;
    DividesLe(l, u * v);
    DividesLe(u, l);
    DividesLe(v, l);
  }

  /** It is a multiple of every count, and divides every other such number. */
  lemma {:induction false} LcmAllIsLeast(vfs: seq<VariableField>, m: nat)
    ensures forall k :: 0 <= k < |vfs| ==> Divides(OrOne(vfs[k].count), LcmAll(vfs))
    ensures (forall k :: 0 <= k < |vfs| ==> Divides(OrOne(vfs[k].count), m)) ==> Divides(LcmAll(vfs), m)
  {
    hide OrOne;
    if vfs == [] {
      DividesBy(1, m, m);
    } else {
      var n := |vfs| - 1;
      var l := LcmAll(vfs[..n]);
      LcmAllIsLeast(vfs[..n], m);
      forall k | 0 <= k < |vfs| ensures Divides(OrOne(vfs[k].count), LcmAll(vfs)) {
        if k < n {
          assert vfs[..n][k] == vfs[k];
          DividesTransitive(OrOne(vfs[k].count), l, LcmAll(vfs));
        }
      }
    }
  }

  lemma LcmAllSnoc(vfs: seq<VariableField>, vf: VariableField)
    ensures LcmAll(vfs + [vf]) == LcmOf(LcmAll(vfs), OrOne(vf.count))
    ensures LcmAll(vfs) <= LcmAll(vfs + [vf])
  {
    assert (vfs + [vf])[..|vfs|] == vfs;
    LcmPositive(LcmAll(vfs), OrOne(vf.count));
  }

  lemma {:induction false} LcmAllGrows(vfs: seq<VariableField>, n: nat)
    requires n <= |vfs|
    ensures LcmAll(vfs[..n]) <= LcmAll(vfs)
    decreases |vfs| - n
  {
    hide LcmAll, LcmOf;
    if n == |vfs| {
      assert vfs[..n] == vfs;
    } else {
      LcmAllGrows(vfs, n + 1);
      assert vfs[..n + 1] == vfs[..n] + [vfs[n]];
      LcmAllSnoc(vfs[..n], vfs[n]);
    }
  }

  /** The cache after one more field. */
  ghost function Appended(cache: int32, count: uint32): int32 { ToInt(CodeLcm(ToU64(cache), count)) }

  /** A cache that holds the lcm goes on holding it while it fits an `int`. */
  lemma AppendedIsLcm(vfs: seq<VariableField>, vf: VariableField, cache: int32)
    requires cache == LcmAll(vfs) && LcmAll(vfs + [vf]) < 0x8000_0000
    ensures Appended(cache, vf.count) == LcmAll(vfs + [vf])
  {
    hide LcmOf, CodeLcm, LcmAll;
    LcmAllSnoc(vfs, vf);
    CodeLcmIff(cache, vf.count);
    assert cache * OrOne(vf.count) < TWO64 by { MulMonotone(cache, 0x8000_0000, OrOne(vf.count)); }
  }

  /** The cache is right once it is positive. */
  ghost predicate Valid(vfs: seq<VariableField>, cache: int32) { cache > 0 ==> cache == LcmAll(vfs) }

  const FIVE := VariableField(Counter8, 0, 0, 0, Increment, 5, 1)

  /** An invalidated cache is not a multiple of five after a count of five is appended. */
  lemma UnprimedFive()
    ensures Appended(-1, 5) == 858993458 && 858993458 % 5 == 3
  {
    hide GcdOf, Appended;
    GcdFive();
    InvalidAppended(5);
  }

  lemma GcdFive()
    ensures GcdOf(INVALID, 5) == 5
  {
    DividesBy(5, INVALID, 0x3333_3333_3333_3333);
    DividesBy(5, 5, 1);
    hide Divides;
    GcdUnique(5, GcdOf(INVALID, 5), INVALID, 5);
  }

  lemma FiveDivides(vfs: seq<VariableField>)
    ensures LcmAll(vfs + [FIVE]) % 5 == 0
  {
    hide LcmAll;
    LcmAllIsLeast(vfs + [FIVE], 0);
    var l := LcmAll(vfs + [FIVE]);
    assert (vfs + [FIVE])[|vfs|] == FIVE;
    assert Divides(5, l);
    var k: nat :| l == 5 * k;
  }

  /** Appending to an invalidated cache leaves a wrong count behind, whatever the list. */
  lemma UnprimedAppendFails(vfs: seq<VariableField>)
    ensures !Valid(vfs + [FIVE], Appended(-1, FIVE.count))
  {
    UnprimedFive();
    FiveDivides(vfs);
  }

  /** From a primed cache every append keeps it right, from an invalidated one not every; which
      of them do is `InvalidatedAppendIff`. */
  lemma AppendKeepsValidIff(vfs: seq<VariableField>, cache: int32)
    requires cache == -1 || cache > 0
    requires Valid(vfs, cache) && 5 * LcmAll(vfs) < 0x8000_0000
    ensures (forall vf: VariableField :: LcmAll(vfs + [vf]) < 0x8000_0000
               ==> Valid(vfs + [vf], Appended(cache, vf.count)))
        <==> cache > 0
  {
    hide LcmOf, LcmAll, Appended;
    if cache > 0 {
      forall vf: VariableField | LcmAll(vfs + [vf]) < 0x8000_0000
        ensures Valid(vfs + [vf], Appended(cache, vf.count))
      {
        AppendedIsLcm(vfs, vf, cache);
      }
    } else {
      UnprimedAppendFails(vfs);
      LcmAllSnoc(vfs, FIVE);
      LcmPositive(LcmAll(vfs), 5);
    }
  }

  // ------- one append to an unprimed cache -------

  const LARGEST := VariableField(Counter8, 0, 0, 0, Increment, 0xFFFF_FFFF, 1)

  /** While the cache stays unprimed the next query counts afresh, and no harm is done; but once
      an append makes it positive, there are lists for which it is wrong. */
  lemma UnprimedAppendIff(cache: int32, vf: VariableField)
    ensures (forall vfs :: Valid(vfs + [vf], Appended(cache, vf.count))) <==> Appended(cache, vf.count) <= 0
  {
    hide Appended, LcmAll, LcmOf;
    var r := Appended(cache, vf.count);
    if r > 0 {
      NothingCounted([LARGEST]);
      LcmAllSnoc([], LARGEST);
      LcmAllSnoc([LARGEST], vf);
      LcmPositive(LcmAll([]), OrOne(LARGEST.count));
      assert [LARGEST] == [] + [LARGEST];
      assert LcmAll([LARGEST] + [vf]) >= 0xFFFF_FFFF;
      assert !Valid([LARGEST] + [vf], r);
    }
  }

  /** 2^64 - 1, an invalidated cache as the lcm sees it. */
  const INVALID: uint64 := 0xFFFF_FFFF_FFFF_FFFF

  function Low32(x: nat): nat { x % 0x1_0000_0000 }

  /** A count that leaves an invalidated cache unprimed. */
  ghost predicate Harmless(count: uint32) {
    var v := OrOne(count);
    GcdPositive(INVALID, v);
    var g := GcdOf(INVALID, v);
    if g == 1 then v <= 0x8000_0000
    else
      var low := Low32((INVALID - v) / g);
      low == 0 || low >= 0x8000_0000
  }

  lemma InvalidProduct(v: nat)
    requires 0 < v < TWO64
    ensures (INVALID * v) % TWO64 == TWO64 - v
  {
    assert INVALID * v == (v - 1) * TWO64 + (TWO64 - v);
    DivUnique(INVALID * v, TWO64, v - 1, TWO64 - v);
  }

  lemma InvalidQuotient(v: nat)
    requires 0 < v < 0x1_0000_0000
    ensures GcdOf(INVALID, v) > 0
    ensures GcdOf(INVALID, v) > 1 ==> (TWO64 - v) / GcdOf(INVALID, v) == (INVALID - v) / GcdOf(INVALID, v)
  {
    hide GcdOf;
    GcdPositive(INVALID, v);
    var g := GcdOf(INVALID, v);
    if g > 1 {
      DividesSum(g, INVALID, v);
      var k: nat :| INVALID - v == g * k;
      DivUnique(INVALID - v, g, k, 0);
      DivUnique(TWO64 - v, g, k, 1);
    }
  }

  /** What an append makes of an invalidated cache. */
  lemma InvalidAppended(count: uint32)
    ensures var v := OrOne(count);
            && 0 < GcdOf(INVALID, v) <= v
            && Appended(-1, count)
            == ToInt(if GcdOf(INVALID, v) == 1 then TWO64 - v else (INVALID - v) / GcdOf(INVALID, v))
  {
    var v := OrOne(count);
    hide GcdOf, ToInt;
    InvalidProduct(v);
    InvalidQuotient(v);
    DividesLe(GcdOf(INVALID, v), v);
    if v == 1 { GcdOfOne(INVALID); }
  }

  /** Appending to an invalidated cache is harmless, whatever the list, exactly for the counts
      that leave bit 31 of the quotient set: all counts up to 2^31 that have no divisor in common
      with 2^64 - 1, and some of the others. */
  lemma InvalidatedAppendIff(vf: VariableField)
    ensures (forall vfs :: Valid(vfs + [vf], Appended(-1, vf.count))) <==> Harmless(vf.count)
  {
    hide GcdOf, Appended, ToInt, Low32;
    UnprimedAppendIff(-1, vf);
    InvalidAppended(vf.count);
    var v := OrOne(vf.count);
    var g := GcdOf(INVALID, v);
    SignOf(TWO64 - v);
    LowOf(v);
    if g > 1 { SignOf((INVALID - v) / g); }
  }

  lemma SignOf(x: uint64)
    ensures ToInt(x) <= 0 <==> Low32(x) == 0 || Low32(x) >= 0x8000_0000
  {
  }

  lemma LowOf(v: nat)
    requires 0 < v < 0x1_0000_0000
    ensures Low32(TWO64 - v) == 0x1_0000_0000 - v
  {
  }

  lemma GcdOfOne(u: nat)
    requires u > 0
    ensures GcdOf(u, 1) == 1
  {
    GcdPositive(u, 1);
    DividesLe(GcdOf(u, 1), 1);
  }

  // ------- the protocol's list -------

  class Protocol {
    var fields: seq<VariableField>
    var frameVariableCount: int32

    constructor ()
      ensures fields == [] && frameVariableCount == -1
    {
      fields, frameVariableCount := [], -1;
    }

    method AppendVariableField(vf: VariableField)
      modifies this
      ensures fields == old(fields) + [vf]
      ensures frameVariableCount == Appended(old(frameVariableCount), vf.count)
      ensures (Valid(old(fields), old(frameVariableCount)) && old(frameVariableCount) > 0
               && LcmAll(fields) < 0x8000_0000) ==> frameVariableCount == LcmAll(fields)
    {
      hide LcmAll, CodeLcm;
      var l := BinaryLcm(ToU64(frameVariableCount), vf.count);
      if frameVariableCount == LcmAll(fields) && LcmAll(fields + [vf]) < 0x8000_0000 {
        AppendedIsLcm(fields, vf, frameVariableCount);
      }
      fields := fields + [vf];
      frameVariableCount := ToInt(l);
    }

    method RemoveVariableField(index: nat)
      modifies this
      ensures index >= |old(fields)| ==> fields == old(fields) && frameVariableCount == old(frameVariableCount)
      ensures index < |old(fields)| ==> fields == old(fields)[..index] + old(fields)[index + 1..]
      ensures index < |old(fields)| && LcmAll(fields) < 0x8000_0000 ==> frameVariableCount == LcmAll(fields)
    {
      hide LcmAll;
      if index >= |fields| { return; }
      var temp := fields[..index] + fields[index + 1..];
      fields := [];
      frameVariableCount := 1;
      NothingCounted(temp);
      for i := 0 to |temp|
        invariant fields == temp[..i]
        invariant LcmAll(temp) < 0x8000_0000 ==> frameVariableCount == LcmAll(temp[..i])
      {
        fields := fields + [temp[i]];
        var l := BinaryLcm(ToU64(frameVariableCount), temp[i].count);
        Recounted(temp, i, frameVariableCount);
        frameVariableCount := ToInt(l);
      }
    }

    /** The pointer handed out is written through at once; the cache is invalidated first. */
    method MutateVariableField(index: int, vf: VariableField) returns (ok: bool)
      modifies this
      ensures ok == (0 <= index < |old(fields)|)
      ensures if ok then fields == old(fields)[index := vf] && frameVariableCount == -1
              else fields == old(fields) && frameVariableCount == old(frameVariableCount)
    {
      if index < 0 || index >= |fields| { return false; }
      frameVariableCount := -1;
      fields := fields[index := vf];
      ok := true;
    }

    method ProtocolFrameVariableCount() returns (count: int32)
      modifies this`frameVariableCount
      ensures count == frameVariableCount
      ensures old(frameVariableCount) > 0 ==> frameVariableCount == old(frameVariableCount)
      ensures Valid(fields, old(frameVariableCount)) && LcmAll(fields) < 0x8000_0000 ==> count == LcmAll(fields)
    {
      hide LcmAll;
      if frameVariableCount > 0 { return frameVariableCount; }
      frameVariableCount := 1;
      NothingCounted(fields);
      for i := 0 to |fields|
        invariant LcmAll(fields) < 0x8000_0000 ==> frameVariableCount == LcmAll(fields[..i])
      {
        var l := BinaryLcm(ToU64(frameVariableCount), fields[i].count);
        Recounted(fields, i, frameVariableCount);
        frameVariableCount := ToInt(l);
      }
      assert fields[..|fields|] == fields;
      count := frameVariableCount;
    }
  }

  lemma NothingCounted(vfs: seq<VariableField>)
    ensures LcmAll(vfs[..0]) == 1
  {
  }

  /** One step of counting a list afresh. */
  lemma Recounted(vfs: seq<VariableField>, i: nat, cache: int32)
    requires i < |vfs|
    ensures LcmAll(vfs) < 0x8000_0000 && cache == LcmAll(vfs[..i])
        ==> ToInt(CodeLcm(ToU64(cache), vfs[i].count)) == LcmAll(vfs[..i + 1])
  {
    hide CodeLcm, ToInt, ToU64, LcmAll, LcmOf;
    assert vfs[..i] + [vfs[i]] == vfs[..i + 1];
    LcmAllGrows(vfs, i + 1);
    if LcmAll(vfs) < 0x8000_0000 && cache == LcmAll(vfs[..i]) { AppendedIsLcm(vfs[..i], vfs[i], cache); }
  }
}
