/**
 The group records of an IGMPv3 report: how they are set and written, and what a receiver
 that follows section 4.2 of RFC 3376 reads back.
 */
module Igmp {
  import opened Options
  import opened Unsigned
  import opened Bits
  import opened Bytes

  /** A character of auxiliary data; others do not survive the conversion to text and back. */
  type ascii = x: nat | x < 0x80

  datatype GroupRecord = GroupRecord(
    kind: uint32, group: uint32, sources: seq<uint32>,
    isOverrideSourceCount: bool, sourceCount: uint32,
    isOverrideAuxDataLength: bool, auxDataLength: uint32, auxData: seq<ascii>)

  // ------- setting -------

  /** setFieldData pads the auxiliary data to a whole word. */
  function Padded(aux: seq<ascii>): (r: seq<ascii>)
    ensures |r| % 4 == 0 && aux <= r && |r| < |aux| + 4
    ensures forall i :: |aux| <= i < |r| ==> r[i] == 0
  {
    if |aux| % 4 == 0 then aux else aux + seq(4 - |aux| % 4, _ => 0)
  }

  // ------- writing -------

  function AuxLength(r: GroupRecord): byte {
    (if r.isOverrideAuxDataLength then r.auxDataLength else |r.auxData| / 4) % 0x100
  }

  function SourceCount(r: GroupRecord): nat {
    (if r.isOverrideSourceCount then r.sourceCount else |r.sources|) % 0x1_0000
  }

  function Octets(s: seq<ascii>): (r: seq<byte>)
    ensures |r| == |s| && forall i :: 0 <= i < |s| ==> r[i] == s[i]
  {
    seq(|s|, i requires 0 <= i < |s| => s[i])
  }

  function Words(xs: seq<uint32>): (r: seq<byte>)
    ensures |r| == 4 * |xs|
  {
    if xs == [] then [] else Words(xs[..|xs| - 1]) + ToBe(xs[|xs| - 1], 4)
  }

  /** One record on the wire. */
  function Encoded(r: GroupRecord): seq<byte> {
    [r.kind % 0x100, AuxLength(r)] + ToBe(SourceCount(r), 2) + ToBe(r.group, 4) + Words(r.sources) + Octets(r.auxData)
  }

  function EncodedAll(rs: seq<GroupRecord>): seq<byte> {
    if rs == [] then [] else Encoded(rs[0]) + EncodedAll(rs[1..])
  }

  /** The part of a record that IGMP and MLD share: no group address and no sources yet. */
  function Common(r: GroupRecord): seq<byte> {
    [r.kind % 0x100, AuxLength(r)] + ToBe(SourceCount(r), 2) + Octets(r.auxData)
  }

  method GmpRecord(r: GroupRecord) returns (rv: seq<byte>)
    ensures rv == Common(r)
    ensures |rv| == 4 + |r.auxData| && rv[0] == r.kind % 0x100
    ensures rv[1] == (if r.isOverrideAuxDataLength then r.auxDataLength else |r.auxData| / 4) % 0x100
    ensures FromBe(rv[2..4]) == (if r.isOverrideSourceCount then r.sourceCount else |r.sources|) % 0x1_0000
    ensures forall i :: 0 <= i < |r.auxData| ==> rv[4 + i] == r.auxData[i]
  {
    var srcCount;
    var first, second := r.kind % 0x100, 0;
    if r.isOverrideAuxDataLength {
      second := r.auxDataLength % 0x100;
    } else {
      second := |r.auxData| / 4 % 0x100;
    }
    if r.isOverrideSourceCount {
      srcCount := r.sourceCount % 0x1_0000;
    } else {
      srcCount := |r.sources| % 0x1_0000;
    }
    rv := [first, second] + ToBe(srcCount, 2);
    rv := rv + Octets(r.auxData);
    ReadBack(srcCount);
    assert rv[2..4] == ToBe(srcCount, 2);
  }

  /** qToBigEndian into the middle of a byte array. */
  function Put(rv: seq<byte>, at: nat, x: uint32): seq<byte>
    requires at + 4 <= |rv|
  {
    rv[..at] + ToBe(x, 4) + rv[at + 4..]
  }

  /** IGMP makes room after the fourth byte and writes the addresses there. */
  method IgmpRecord(r: GroupRecord) returns (rv: seq<byte>)
    ensures rv == Encoded(r)
  {
    hide AuxLength, SourceCount, Octets;
    rv := GmpRecord(r);
    ghost var head, tail := rv[..4], Octets(r.auxData);
    assert rv == head + tail;
    var n := |r.sources|;
    rv := rv[..4] + seq(4 + 4 * n, _ => 0) + rv[4..];
    rv := Put(rv, 4, r.group);
    head := head + ToBe(r.group, 4);
    assert rv[..8] == head;
    for j := 0 to n
      invariant |rv| == 8 + 4 * n + |tail| && |head| == 8
      invariant rv[..8 + 4 * j] == head + Words(r.sources[..j])
      invariant rv[8 + 4 * n..] == tail
    {
      ghost var before := rv;
      rv := Put(rv, 8 + 4 * j, r.sources[j]);
      assert r.sources[..j + 1][..j] == r.sources[..j];
      assert rv[..8 + 4 * (j + 1)] == before[..8 + 4 * j] + ToBe(r.sources[j], 4);
      assert rv[8 + 4 * n..] == before[8 + 4 * n..];
    }
    assert r.sources[..n] == r.sources;
    assert rv == rv[..8 + 4 * n] + rv[8 + 4 * n..];
  }

  method IgmpRecords(rs: seq<GroupRecord>) returns (fv: seq<byte>)
    ensures fv == EncodedAll(rs)
  {
    hide Encoded;
    fv := [];
    for i := 0 to |rs|
      invariant fv + EncodedAll(rs[i..]) == EncodedAll(rs)
    {
      var rv := IgmpRecord(rs[i]);
      assert rs[i..][1..] == rs[i + 1..];
      fv := fv + rv;
    }
  }

  // ------- reading -------

  /** What a record says. */
  datatype Parsed = Parsed(kind: nat, group: nat, sources: seq<nat>, auxData: seq<byte>)

  function Content(r: GroupRecord): Parsed { Parsed(r.kind, r.group, r.sources, Octets(r.auxData)) }

  function ReadWords(s: seq<byte>, n: nat): (xs: seq<nat>)
    requires 4 * n <= |s|
    ensures |xs| == n
  {
    seq(n, i requires 0 <= i < n => FromBe(s[4 * i..4 * i + 4]))
  }

  /** Section 4.2.4 to 4.2.10 of RFC 3376: type, length of the auxiliary data in words, number
      of sources, group, sources, auxiliary data; and what follows the record. */
  function Decode(s: seq<byte>): Option<(Parsed, seq<byte>)> {
    if |s| < 8 then None
    else
      var a, n := s[1] as nat, FromBe(s[2..4]);
      if |s| < 8 + 4 * n + 4 * a then None
      else Some((Parsed(s[0], FromBe(s[4..8]), ReadWords(s[8..], n), s[8 + 4 * n..8 + 4 * n + 4 * a]),
                 s[8 + 4 * n + 4 * a..]))
  }

  /** As many records as the report says it has, and nothing else. */
  function DecodeAll(s: seq<byte>, n: nat): Option<seq<Parsed>>
    decreases n
  {
    if n == 0 then if s == [] then Some([]) else None
    else
      var d := Decode(s);
      if d.None? then None
      else
        var rest := DecodeAll(d.value.1, n - 1);
        if rest.None? then None else Some([d.value.0] + rest.value)
  }

  // ------- the round trip -------

  /** The length fields of the record tell its true lengths. */
  predicate Faithful(r: GroupRecord) {
    && r.kind < 0x100
    && (if r.isOverrideSourceCount then r.sourceCount else |r.sources|) % 0x1_0000 == |r.sources|
    && 4 * ((if r.isOverrideAuxDataLength then r.auxDataLength else |r.auxData| / 4) % 0x100) == |r.auxData|
  }

  lemma LengthsTrue(r: GroupRecord)
    ensures Faithful(r)
        <==> r.kind < 0x100 && SourceCount(r) == |r.sources| && 4 * AuxLength(r) as nat == |r.auxData|
  {
  }

  lemma ReadBack(x: uint32)
    ensures FromBe(ToBe(x, 4)) == x && (x < 0x1_0000 ==> FromBe(ToBe(x, 2)) == x)
  {
    hide FromBe, ToBe, Pow2;
    Pow2Values();
    FromToBe(x, 4);
    FromToBe(x, 2);
  }

  lemma SliceOfJoined(s: seq<byte>, t: seq<byte>, a: nat, b: nat)
    requires a <= b <= |s|
    ensures (s + t)[a..b] == s[a..b] && (s + t)[|s|..|s| + |t|] == t
  {
  }

  lemma {:induction false} WordAt(xs: seq<uint32>, i: nat)
    requires i < |xs|
    ensures Words(xs)[4 * i..4 * i + 4] == ToBe(xs[i], 4)
  {
    var n := |xs| - 1;
    assert Words(xs) == Words(xs[..n]) + ToBe(xs[n], 4);
    hide Words, ToBe;
    if i < n {
      assert xs[..n][i] == xs[i];
      WordAt(xs[..n], i);
      SliceOfJoined(Words(xs[..n]), ToBe(xs[n], 4), 4 * i, 4 * i + 4);
    } else {
      SliceOfJoined(Words(xs[..n]), ToBe(xs[n], 4), 0, 0);
    }
  }

  lemma WordReadBack(xs: seq<uint32>, rest: seq<byte>, i: nat)
    requires i < |xs|
    ensures FromBe((Words(xs) + rest)[4 * i..4 * i + 4]) == xs[i]
  {
    hide Words, FromBe, ToBe;
    assert (Words(xs) + rest)[4 * i..4 * i + 4] == Words(xs)[4 * i..4 * i + 4];
    WordAt(xs, i);
    ReadBack(xs[i]);
  }

  lemma WordsReadBack(xs: seq<uint32>, rest: seq<byte>)
    ensures ReadWords(Words(xs) + rest, |xs|) == xs
  {
    hide Words, FromBe, ToBe;
    var r := ReadWords(Words(xs) + rest, |xs|);
    forall i | 0 <= i < |xs| ensures r[i] == xs[i] {
      WordReadBack(xs, rest, i);
    }
  }

  /** The fixed fields of a record followed by anything. */
  lemma Fixed(r: GroupRecord, rest: seq<byte>)
    ensures var s := Encoded(r) + rest;
            && |s| >= 8 && s[0] == r.kind % 0x100 && s[1] == AuxLength(r)
            && FromBe(s[2..4]) == SourceCount(r) && FromBe(s[4..8]) == r.group
            && s[8..] == Words(r.sources) + (Octets(r.auxData) + rest)
  {
    hide AuxLength, FromBe, ToBe, Words, Octets;
    var s := Encoded(r) + rest;
    assert s[2..4] == ToBe(SourceCount(r), 2);
    assert s[4..8] == ToBe(r.group, 4);
    ReadBack(SourceCount(r));
    ReadBack(r.group);
  }

  /** One record is read back, with what follows it, if its lengths are true; and otherwise
      something else is read. */
  lemma DecodesIff(r: GroupRecord, rest: seq<byte>)
    ensures Faithful(r) ==> Decode(Encoded(r) + rest) == Some((Content(r), rest))
    ensures !Faithful(r) ==> var d := Decode(Encoded(r) + rest); d.None? || d.value.0 != Content(r)
  {
    LengthsTrue(r);
    hide AuxLength, SourceCount, FromBe, Words, Octets, Encoded, ReadWords, Faithful;
    var s := Encoded(r) + rest;
    Fixed(r, rest);
    if Faithful(r) {
      var n, a := |r.sources|, |r.auxData|;
      assert s[8 + 4 * n..8 + 4 * n + a] == s[8..][4 * n..4 * n + a] == Octets(r.auxData);
      assert s[8 + 4 * n + a..] == s[8..][4 * n + a..] == rest;
      WordsReadBack(r.sources, Octets(r.auxData) + rest);
    }
  }

  predicate AllFaithful(rs: seq<GroupRecord>) { forall i :: 0 <= i < |rs| ==> Faithful(rs[i]) }

  function Contents(rs: seq<GroupRecord>): (ps: seq<Parsed>)
    ensures |ps| == |rs|
  {
    if rs == [] then [] else [Content(rs[0])] + Contents(rs[1..])
  }

  /** A receiver reads exactly the records that were set, if and only if every record's length
      fields are true: with no override, at most 65535 sources and 255 words. */
  lemma {:induction false} RoundTripIff(rs: seq<GroupRecord>)
    ensures DecodeAll(EncodedAll(rs), |rs|) == Some(Contents(rs)) <==> AllFaithful(rs)
    decreases |rs|
  {
    hide Decode, Encoded, Faithful, Content;
    if rs != [] {
      DecodesIff(rs[0], EncodedAll(rs[1..]));
      RoundTripIff(rs[1..]);
      var d := Decode(EncodedAll(rs));
      if Faithful(rs[0]) {
        assert d == Some((Content(rs[0]), EncodedAll(rs[1..])));
        assert AllFaithful(rs) <==> AllFaithful(rs[1..]) by {
          assert forall i :: 0 < i < |rs| ==> rs[i] == rs[1..][i - 1];
        }
        FirstSame(Content(rs[0]), DecodeAll(EncodedAll(rs[1..]), |rs| - 1), Contents(rs[1..]));
      } else {
        assert Contents(rs)[0] == Content(rs[0]);
      }
    }
  }

  lemma FirstSame(p: Parsed, d: Option<seq<Parsed>>, ps: seq<Parsed>)
    ensures d.Some? ==> ([p] + d.value == [p] + ps <==> d.value == ps)
  {
    if d.Some? {
      assert ([p] + d.value)[1..] == d.value && ([p] + ps)[1..] == ps;
    }
  }

  /** What a user enters for a record. */
  datatype Input = Input(kind: uint32, group: uint32, sources: seq<uint32>, auxData: seq<ascii>)

  function SetRecord(e: Input): GroupRecord {
    GroupRecord(e.kind, e.group, e.sources, false, 0, false, 0, Padded(e.auxData))
  }

  function SetAll(es: seq<Input>): (rs: seq<GroupRecord>)
    ensures |rs| == |es| && forall i :: 0 <= i < |es| ==> rs[i] == SetRecord(es[i])
  {
    seq(|es|, i requires 0 <= i < |es| => SetRecord(es[i]))
  }

  predicate Fits(e: Input) { e.kind < 0x100 && |e.sources| < 0x1_0000 && |e.auxData| <= 4 * 255 }

  /** Records entered without overrides, and padded to whole words, come back exactly while the
      counts fit their fields. */
  lemma EnteredRoundTripIff(es: seq<Input>)
    ensures DecodeAll(EncodedAll(SetAll(es)), |es|) == Some(Contents(SetAll(es)))
        <==> forall i :: 0 <= i < |es| ==> Fits(es[i])
  {
    hide DecodeAll, EncodedAll, Contents, Faithful, Fits;
    RoundTripIff(SetAll(es));
    forall i | 0 <= i < |es| ensures Faithful(SetAll(es)[i]) <==> Fits(es[i]) {
      FitsIff(es[i]);
    }
    var rs := SetAll(es);
    assert AllFaithful(rs) <==> forall i :: 0 <= i < |es| ==> Fits(es[i]);
  }

  lemma FitsIff(e: Input)
    ensures Faithful(SetRecord(e)) <==> Fits(e)
  {
  }
}
