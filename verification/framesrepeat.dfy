/**
 The frames of an IPv4 stream repeat: header `i` and header `i` plus the variable count are
 the same, the stepped addresses, the user's variable fields and the checksum included.
 */
module FramesRepeat {
  import Bits
  import opened Unsigned
  import CksumField
  import opened Bytes
  import opened FrameBuilder
  import opened Checksum
  import opened VariableFields
  import opened Gcd
  import opened Lcm
  import opened VariableCount
  import Ip4
  import IpCksum

  ghost function WithAddress(count: nat, a: Ip4.Address): (l: nat)
    requires count > 0
    ensures l > 0 && count <= l
    ensures Divides(count, l) && (a.mode != Ip4.FixedHost ==> Divides(OrOne(a.count), l))
  {
    LcmPositive(count, OrOne(a.count));
    DividesBy(count, count, 1);
    if a.mode == Ip4.FixedHost then count else LcmOf(count, OrOne(a.count))
  }

  /** The least common multiple of all that varies in the header. */
  ghost function HeaderCount(d: Ip4.Config, vfs: seq<VariableField>): (n: nat)
    ensures n > 0
  {
    WithAddress(WithAddress(LcmAll(vfs), d.src), d.dst)
  }

  lemma AddressCounted(count: int32, a: Ip4.Address)
    requires count > 0 && a.mode != Ip4.FixedHost && WithAddress(count, a) < 0x8000_0000
    ensures ToInt(CodeLcm(ToU64(count), a.count)) == WithAddress(count, a)
  {
    hide CodeLcm, LcmOf;
    CodeLcmIff(count, a.count);
    assert count * OrOne(a.count) < TWO64 by { Bits.MulMonotone(count, 0x8000_0000, OrOne(a.count)); }
  }

  /** protocolFrameVariableCount of IPv4. */
  method Ip4VariableCount(p: VariableCount.Protocol, d: Ip4.Config) returns (count: int32)
    modifies p`frameVariableCount
    ensures Valid(p.fields, old(p.frameVariableCount)) && HeaderCount(d, p.fields) < 0x8000_0000
        ==> count == HeaderCount(d, p.fields)
  {
    hide LcmAll, CodeLcm, LcmOf;
    count := p.ProtocolFrameVariableCount();
    ghost var right := Valid(p.fields, old(p.frameVariableCount)) && HeaderCount(d, p.fields) < 0x8000_0000;
    assert right ==> count == LcmAll(p.fields);
    if d.src.mode != Ip4.FixedHost {
      if right { AddressCounted(count, d.src); }
      var l := BinaryLcm(ToU64(count), d.src.count);
      count := ToInt(l);
    }
    assert right ==> count == WithAddress(LcmAll(p.fields), d.src);
    if d.dst.mode != Ip4.FixedHost {
      if right { AddressCounted(count, d.dst); }
      var l := BinaryLcm(ToU64(count), d.dst.count);
      count := ToInt(l);
    }
  }

  // ------- periodicity -------

  lemma SameResidue(i: nat, n: nat, c: nat)
    requires c > 0 && Divides(c, n)
    ensures (i + n) % c == i % c
  {
    var k: nat :| n == c * k;
    var q, r := i / c, i % c;
    assert i + n == (q + k) * c + r by { assert (q + k) * c == q * c + k * c; }
    Bits.DivUnique(i + n, c, q + k, r);
  }

  lemma SameAddress(a: Ip4.Address, i: nat, n: nat, rnd: uint32, rnd': uint32)
    requires a.mode == Ip4.FixedHost || (a.mode != Ip4.RandomHost && a.count > 0 && Divides(OrOne(a.count), n))
    ensures Ip4.StepAddress(a, i + n, rnd') == Ip4.StepAddress(a, i, rnd)
  {
    hide Ip4.AndWord, Ip4.OrWord, Ip4.NotWord;
    if a.mode != Ip4.FixedHost { SameResidue(i, n, a.count); }
  }

  lemma CountIsCommon(d: Ip4.Config, vfs: seq<VariableField>)
    ensures forall k :: 0 <= k < |vfs| ==> Divides(OrOne(vfs[k].count), HeaderCount(d, vfs))
    ensures d.src.mode != Ip4.FixedHost ==> Divides(OrOne(d.src.count), HeaderCount(d, vfs))
    ensures d.dst.mode != Ip4.FixedHost ==> Divides(OrOne(d.dst.count), HeaderCount(d, vfs))
  {
    hide OrOne, LcmAll;
    var c, s, n := LcmAll(vfs), WithAddress(LcmAll(vfs), d.src), HeaderCount(d, vfs);
    DividesTransitive(c, s, n);
    LcmAllIsLeast(vfs, 0);
    forall k | 0 <= k < |vfs| ensures Divides(OrOne(vfs[k].count), n) {
      DividesTransitive(OrOne(vfs[k].count), c, n);
    }
    if d.src.mode != Ip4.FixedHost { DividesTransitive(OrOne(d.src.count), s, n); }
  }

  /** And it divides whatever else is a common multiple of them. */
  lemma CountIsLeast(d: Ip4.Config, vfs: seq<VariableField>, m: nat)
    requires forall k :: 0 <= k < |vfs| ==> Divides(OrOne(vfs[k].count), m)
    requires d.src.mode != Ip4.FixedHost ==> Divides(OrOne(d.src.count), m)
    requires d.dst.mode != Ip4.FixedHost ==> Divides(OrOne(d.dst.count), m)
    ensures Divides(HeaderCount(d, vfs), m)
  {
    hide LcmAll, LcmOf, Divides;
    LcmAllIsLeast(vfs, m);
    AddressLeast(LcmAll(vfs), d.src, m);
    AddressLeast(WithAddress(LcmAll(vfs), d.src), d.dst, m);
  }

  lemma AddressLeast(count: nat, a: Ip4.Address, m: nat)
    requires count > 0 && Divides(count, m) && (a.mode != Ip4.FixedHost ==> Divides(OrOne(a.count), m))
    ensures Divides(WithAddress(count, a), m)
  {
    hide Divides;
  }

  predicate Unrandom(d: Ip4.Config, vfs: seq<VariableField>) {
    && Ip4.Stepping(d) && d.src.mode != Ip4.RandomHost && d.dst.mode != Ip4.RandomHost
    && Countable(vfs) && NoRandom(vfs)
  }

  lemma SameFields(d: Ip4.Config, vfs: seq<VariableField>, i: nat, n: nat, rnd: (uint32, uint32), rnd': (uint32,
      uint32),
                   payloadSize: nat, payloadId: nat, cksum: nat)
    requires Unrandom(d, vfs) && n == HeaderCount(d, vfs)
    ensures Ip4.Fields(d, i + n, rnd', payloadSize, payloadId, cksum) == Ip4.Fields(d, i, rnd, payloadSize,
        payloadId, cksum)
  {
    hide Ip4.StepAddress, HeaderCount;
    CountIsCommon(d, vfs);
    SameAddress(d.src, i, n, rnd.0, rnd'.0);
    SameAddress(d.dst, i, n, rnd.1, rnd'.1);
  }

  /** The frame value, for a checksum or not, of the same fields at the two frames. */
  lemma SameFrame(fields: seq<Field>, d: Ip4.Config, vfs: seq<VariableField>, rnds: seq<nat>, rnds': seq<nat>,
                  i: nat, forCksum: bool)
    requires AllEncoded(PreparedAll(fields, forCksum))
    requires Unrandom(d, vfs) && |rnds| == |rnds'| == |vfs|
    ensures FrameValue(fields, vfs, rnds', i + HeaderCount(d, vfs), forCksum)
         == FrameValue(fields, vfs, rnds, i, forCksum)
  {
    hide HeaderCount, VariedAll, Packed;
    var n := HeaderCount(d, vfs);
    CountIsCommon(d, vfs);
    forall k | 0 <= k < |vfs| ensures (i + n) % vfs[k].count == i % vfs[k].count {
      SameResidue(i, n, vfs[k].count);
    }
    VariedAllRepeats(Packed(PreparedAll(fields, forCksum)).proto, i + n, i, vfs, rnds', rnds);
  }

  /** Header `i` of a stream as it is sent. */
  function SentHeader(d: Ip4.Config, vfs: seq<VariableField>, rnds: seq<nat>, i: nat, rnd: (uint32, uint32),
                      payloadSize: nat, payloadId: nat): seq<byte>
    requires Ip4.Stepping(d) && Countable(vfs) && |rnds| == |vfs|
  {
    IpCksum.Header(d, vfs, rnds, i, rnd, payloadSize, payloadId,
                   IpCksum.CksumOf(d, IpCksum.Zeroed(d, vfs, rnds, i, rnd, payloadSize, payloadId)))
  }

  /** For every frame, whatever numbers the random source would have given. */
  lemma HeaderRepeats(d: Ip4.Config, vfs: seq<VariableField>, rnds: seq<nat>, rnds': seq<nat>, i: nat,
                      rnd: (uint32, uint32), rnd': (uint32, uint32), payloadSize: nat, payloadId: nat)
    requires Unrandom(d, vfs) && |rnds| == |rnds'| == |vfs|
    ensures SentHeader(d, vfs, rnds', i + HeaderCount(d, vfs), rnd', payloadSize, payloadId)
         == SentHeader(d, vfs, rnds, i, rnd, payloadSize, payloadId)
  {
    hide HeaderCount, FrameValue, Ip4.Fields, Rfc1071;
    var n := HeaderCount(d, vfs);
    SameFields(d, vfs, i, n, rnd, rnd', payloadSize, payloadId, 0);
    Ip4.FieldsLaidOut(d, i, rnd, payloadSize, payloadId, 0);
    CksumField.PreparedEncoded(Ip4.Fields(d, i, rnd, payloadSize, payloadId, 0), true);
    SameFrame(Ip4.Fields(d, i, rnd, payloadSize, payloadId, 0), d, vfs, rnds, rnds', i, true);
    var c := IpCksum.CksumOf(d, IpCksum.Zeroed(d, vfs, rnds, i, rnd, payloadSize, payloadId));
    SameFields(d, vfs, i, n, rnd, rnd', payloadSize, payloadId, c);
    Ip4.FieldsLaidOut(d, i, rnd, payloadSize, payloadId, c);
    CksumField.PreparedEncoded(Ip4.Fields(d, i, rnd, payloadSize, payloadId, c), false);
    SameFrame(Ip4.Fields(d, i, rnd, payloadSize, payloadId, c), d, vfs, rnds, rnds', i, false);
  }
}
