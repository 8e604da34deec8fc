/**
 The average rates of a port and their redistribution over its streams, in exact reals.
 */
module Rates {

  /** A stream as the rate code sees it; a rate in bursts counts `burstSize` packets each. */
  datatype Stream = Stream(
    enabled: bool, stops: bool, byBursts: bool,
    packetRate: real, burstRate: real, burstSize: nat, frameLenAvg: nat)

  const ETH_OVERHEAD: nat := 20

  /** averagePacketRate */
  function Rate(s: Stream): real {
    if s.byBursts then s.burstRate * s.burstSize as real else s.packetRate
  }

  /** A stream sent in bursts has packets in them. */
  predicate Holds(s: Stream) { s.byBursts ==> s.burstSize > 0 }

  predicate AllHold(ss: seq<Stream>) { forall i :: 0 <= i < |ss| ==> Holds(ss[i]) }

  /** setAveragePacketRate of a stream */
  function WithRate(s: Stream, rate: real): Stream
    requires Holds(s)
  {
    if s.byBursts then s.(burstRate := rate / s.burstSize as real) else s.(packetRate := rate)
  }

  lemma RateHeld(s: Stream, rate: real)
    requires Holds(s)
    ensures Rate(WithRate(s, rate)) == rate
  {
  }

  /** Bits on the wire for one packet. */
  function Weight(s: Stream): real { ((s.frameLenAvg + ETH_OVERHEAD) * 8) as real }

  function BitRate(s: Stream): real { Rate(s) * Weight(s) }

  // ------- what is summed up -------

  /** How far the loops go: over all streams, or in sequential mode up to the first enabled
      stream after which transmission stops. */
  function Reach(ss: seq<Stream>, sequential: bool): (n: nat)
    ensures n <= |ss|
  {
    if ss == [] then 0
    else if ss[0].enabled && sequential && ss[0].stops then 1
    else 1 + Reach(ss[1..], sequential)
  }

  function Pps(ss: seq<Stream>): real {
    if ss == [] then 0.0
    else Pps(ss[..|ss| - 1]) + if ss[|ss| - 1].enabled then Rate(ss[|ss| - 1]) else 0.0
  }

  function Bps(ss: seq<Stream>): real {
    if ss == [] then 0.0
    else
      var s := ss[|ss| - 1];
      Bps(ss[..|ss| - 1]) + if s.enabled then BitRate(s) else 0.0
  }

  function Enabled(ss: seq<Stream>): nat {
    if ss == [] then 0 else Enabled(ss[..|ss| - 1]) + if ss[|ss| - 1].enabled then 1 else 0
  }

  /** The mean of the active streams in sequential mode, their sum in interleaved mode. */
  function Average(sum: real, n: nat, sequential: bool): real {
    if n == 0 then 0.0 else if sequential then sum / n as real else sum
  }

  function Active(ss: seq<Stream>, sequential: bool): seq<Stream> { ss[..Reach(ss, sequential)] }

  function AveragePps(ss: seq<Stream>, sequential: bool): real {
    Average(Pps(Active(ss, sequential)), Enabled(Active(ss, sequential)), sequential)
  }

  function AverageBps(ss: seq<Stream>, sequential: bool): real {
    Average(Bps(Active(ss, sequential)), Enabled(Active(ss, sequential)), sequential)
  }

  function Total(xs: seq<real>): real {
    if xs == [] then 0.0 else Total(xs[..|xs| - 1]) + xs[|xs| - 1]
  }

  /** The first `n` streams are those that are sent: all of them, or in sequential mode those up to
      the first enabled one that stops transmission. */
  predicate Sent(ss: seq<Stream>, sequential: bool, n: nat) {
    && n <= |ss|
    && (forall i :: 0 <= i < n - 1 ==> !(sequential && ss[i].enabled && ss[i].stops))
    && (n < |ss| ==> n > 0 && sequential && ss[n - 1].enabled && ss[n - 1].stops)
  }

  /** What a stream sends a second, given as packets and as bits; a packet takes its frame and
      twenty bytes more on the wire. */
  predicate Sends(s: Stream, packets: real, bits: real) {
    && packets == (if !s.enabled then 0.0
                   else if s.byBursts then s.burstRate * s.burstSize as real else s.packetRate)
    && bits == packets * (8 * (s.frameLenAvg + 20)) as real
  }

  /** The averages of a port are the totals of what its streams send, divided in sequential mode by
      the number of those that are enabled. */
  lemma AveragesAre(ss: seq<Stream>, sequential: bool, n: nat, packets: seq<real>, bits: seq<real>, active: set<nat>)
    requires Sent(ss, sequential, n) && |packets| == |bits| == n
    requires forall i :: 0 <= i < n ==> Sends(ss[i], packets[i], bits[i])
    requires active == set i | 0 <= i < n && ss[i].enabled
    ensures AveragePps(ss, sequential)
         == if active == {} then 0.0 else if sequential then Total(packets) / |active| as real else Total(packets)
    ensures AverageBps(ss, sequential)
         == if active == {} then 0.0 else if sequential then Total(bits) / |active| as real else Total(bits)
  {
    hide Total, Pps, Bps, Enabled, Sends;
    SentReach(ss, sequential, n);
    TotalsAre(ss, n, packets, bits);
    assert active == EnabledOnes(ss, n);
  }

  lemma {:induction false} SentReach(ss: seq<Stream>, sequential: bool, n: nat)
    requires Sent(ss, sequential, n)
    ensures Reach(ss, sequential) == n
  {
    if ss != [] && !(ss[0].enabled && sequential && ss[0].stops) { SentReach(ss[1..], sequential, n - 1); }
  }

  function EnabledOnes(ss: seq<Stream>, n: nat): set<nat>
    requires n <= |ss|
  {
    set i | 0 <= i < n && ss[i].enabled
  }

  lemma {:induction false} TotalsAre(ss: seq<Stream>, n: nat, packets: seq<real>, bits: seq<real>)
    requires n <= |ss| && |packets| == |bits| == n
    requires forall i :: 0 <= i < n ==> Sends(ss[i], packets[i], bits[i])
    ensures Pps(ss[..n]) == Total(packets) && Bps(ss[..n]) == Total(bits)
    ensures Enabled(ss[..n]) == |EnabledOnes(ss, n)|
  {
    hide Rate, BitRate, Sends, EnabledOnes;
    NothingSummed(ss);
    OneEnabled(ss, n);
    if n > 0 {
      hide Total, Pps, Bps, Enabled;
      TotalsAre(ss, n - 1, packets[..n - 1], bits[..n - 1]);
      SumStep(ss, n - 1);
      TotalStep(packets);
      TotalStep(bits);
      RatesAre(ss[n - 1], packets[n - 1], bits[n - 1]);
    }
  }

  lemma OneEnabled(ss: seq<Stream>, n: nat)
    requires n <= |ss|
    ensures n == 0 ==> EnabledOnes(ss, n) == {}
    ensures n > 0 ==> |EnabledOnes(ss, n)| == |EnabledOnes(ss, n - 1)| + if ss[n - 1].enabled then 1 else 0
  {
    if n > 0 {
      var less := EnabledOnes(ss, n - 1);
      assert EnabledOnes(ss, n) == if ss[n - 1].enabled then less + {n - 1} else less;
    }
  }

  lemma TotalStep(xs: seq<real>)
    requires xs != []
    ensures Total(xs) == Total(xs[..|xs| - 1]) + xs[|xs| - 1]
  {
  }

  lemma RatesAre(s: Stream, packets: real, bits: real)
    requires Sends(s, packets, bits)
    ensures packets == if s.enabled then Rate(s) else 0.0
    ensures bits == if s.enabled then BitRate(s) else 0.0
  {
  }

  // ------- what the streams are given -------

  datatype Averages = Averages(pps: real, bps: real)

  function PacketShare(s: Stream, avg: Averages, packetsPerSec: real, sequential: bool): real
    requires avg.pps != 0.0
  {
    if sequential then Rate(s) * (packetsPerSec / avg.pps)
    else Rate(s) + (Rate(s) / avg.pps) * (packetsPerSec - avg.pps)
  }

  function BitShare(s: Stream, avg: Averages, bitsPerSec: real, sequential: bool): real
    requires if sequential then avg.bps != 0.0 else avg.pps != 0.0
  {
    if sequential then Rate(s) * (bitsPerSec / avg.bps)
    else Rate(s) + (Rate(s) / avg.pps) * ((bitsPerSec - avg.bps) / Weight(s))
  }

  datatype Goal = Packets(rate: real) | Bits(rate: real)

  /** The averages that a share divides by. */
  predicate CanShare(avg: Averages, goal: Goal, sequential: bool) {
    if goal.Bits? && sequential then avg.bps != 0.0 else avg.pps != 0.0
  }

  function Share(s: Stream, avg: Averages, goal: Goal, sequential: bool): real
    requires CanShare(avg, goal, sequential)
  {
    match goal
    case Packets(r) => PacketShare(s, avg, r, sequential)
    case Bits(r) => BitShare(s, avg, r, sequential)
  }

  function Shared(s: Stream, avg: Averages, goal: Goal, sequential: bool): (t: Stream)
    requires Holds(s) && (s.enabled ==> CanShare(avg, goal, sequential))
    ensures Holds(t)
  {
    if s.enabled then WithRate(s, Share(s, avg, goal, sequential)) else s
  }

  /** No stream is reached without an average to share by. */
  predicate Shareable(ss: seq<Stream>, n: nat, avg: Averages, goal: Goal, sequential: bool)
    requires n <= |ss|
  {
    CanShare(avg, goal, sequential) || forall i :: 0 <= i < n ==> !ss[i].enabled
  }

  /** The active streams get their share; the others keep what they have. */
  function Redistributed(ss: seq<Stream>, n: nat, avg: Averages, goal: Goal, sequential: bool): (r: seq<Stream>)
    requires n <= |ss| && Shareable(ss, n, avg, goal, sequential) && AllHold(ss)
    ensures |r| == |ss|
    ensures forall i :: 0 <= i < |ss| ==> r[i] == if i < n then Shared(ss[i], avg, goal, sequential) else ss[i]
  {
    seq(|ss|, i requires 0 <= i < |ss| => if i < n then Shared(ss[i], avg, goal, sequential) else ss[i])
  }

  // ------- the loops -------

  class Port {
    var mStreams: seq<Stream>
    var sequential: bool
    var avgPacketsPerSec: real
    var avgBitsPerSec: real
    var numActiveStreams: nat

    constructor (streams: seq<Stream>, sequential: bool)
      ensures mStreams == streams && this.sequential == sequential
    {
      mStreams, this.sequential := streams, sequential;
      avgPacketsPerSec, avgBitsPerSec, numActiveStreams := 0.0, 0.0, 0;
    }

    /** The stored averages are those of the streams. */
    predicate Current()
      reads this
    {
      && avgPacketsPerSec == AveragePps(mStreams, sequential)
      && avgBitsPerSec == AverageBps(mStreams, sequential)
      && numActiveStreams == Enabled(Active(mStreams, sequential))
    }

    method SetAverages(pps: real, bps: real, n: nat)
      modifies this`avgPacketsPerSec, this`avgBitsPerSec, this`numActiveStreams
      ensures avgPacketsPerSec == Average(pps, n, sequential) && avgBitsPerSec == Average(bps, n, sequential)
      ensures numActiveStreams == n
    {
      if n > 0 {
        if sequential {
          avgPacketsPerSec := pps / n as real;
          avgBitsPerSec := bps / n as real;
        } else {
          avgPacketsPerSec := pps;
          avgBitsPerSec := bps;
        }
        numActiveStreams := n;
      } else {
        avgPacketsPerSec, avgBitsPerSec, numActiveStreams := 0.0, 0.0, 0;
      }
    }

    method RecalculateAverageRates()
      modifies this`avgPacketsPerSec, this`avgBitsPerSec, this`numActiveStreams
      ensures Current()
    {
      hide Rate, Weight, BitRate, Average, Pps, Bps, Enabled, Reach;
      var pps, bps, n, i := 0.0, 0.0, 0, 0;
      NothingSummed(mStreams);
      while i < |mStreams|
        invariant i <= |mStreams| && Reach(mStreams, sequential) == i + Reach(mStreams[i..], sequential)
        invariant pps == Pps(mStreams[..i]) && bps == Bps(mStreams[..i]) && n == Enabled(mStreams[..i])
      {
        ReachStep(mStreams, i, sequential);
        SumStep(mStreams, i);
        var s := mStreams[i];
        i := i + 1;
        if !s.enabled { continue; }
        var r := Rate(s);
        pps := pps + r;
        bps := bps + r * Weight(s);
        BitRateIs(s);
        n := n + 1;
        if sequential && s.stops { break; }
      }
      ReachEnd(mStreams, i, sequential);
      assert i == Reach(mStreams, sequential);
      SetAverages(pps, bps, n);
      assert bps == Bps(Active(mStreams, sequential));
    }

    /** setAveragePacketRate and setAverageBitRate, which differ in the share they compute. */
    method SetAverageRate(goal: Goal)
      requires AllHold(mStreams)
      requires Shareable(mStreams, Reach(mStreams, sequential), Averages(avgPacketsPerSec, avgBitsPerSec), goal,
          sequential)
      modifies this`mStreams, this`avgPacketsPerSec, this`avgBitsPerSec, this`numActiveStreams
      ensures mStreams == Redistributed(old(mStreams), Reach(old(mStreams), sequential),
                                        Averages(old(avgPacketsPerSec), old(avgBitsPerSec)), goal, sequential)
      ensures Current()
      ensures old(Current()) && CanShare(Averages(old(avgPacketsPerSec), old(avgBitsPerSec)), goal, sequential)
          ==> (if goal.Packets? then avgPacketsPerSec else avgBitsPerSec) == goal.rate
    {
      hide Rate, Weight, BitRate, Share, WithRate, Holds, Average, Pps, Bps, Enabled, Reach, CanShare;
      ghost var before := mStreams;
      var avg := Averages(avgPacketsPerSec, avgBitsPerSec);
      var pps, bps, n, i := 0.0, 0.0, 0, 0;
      NothingSummed(mStreams);
      while i < |mStreams|
        invariant i <= |before| && AllHold(before) && avgPacketsPerSec == avg.pps && avgBitsPerSec == avg.bps
        invariant i <= Reach(before, sequential) == i + Reach(before[i..], sequential)
        invariant mStreams == Redistributed(before, i, avg, goal, sequential)
        invariant pps == Pps(mStreams[..i]) && bps == Bps(mStreams[..i]) && n == Enabled(mStreams[..i])
      {
        ReachStep(before, i, sequential);
        assert i < Reach(before, sequential) && mStreams[i] == before[i];
        var s := mStreams[i];
        ghost var done := mStreams;
        if s.enabled {
          var rate := Share(s, avg, goal, sequential);
          mStreams := mStreams[i := WithRate(s, rate)];
        }
        OneMore(before, done, mStreams, i, avg, goal, sequential);
        assert mStreams[..i] == done[..i];
        SumStep(mStreams, i);
        s := mStreams[i];
        i := i + 1;
        if !s.enabled { continue; }
        var r := Rate(s);
        pps := pps + r;
        BitRateIs(s);
        var b := r * Weight(s);
        assert b == BitRate(s);
        bps := bps + b;
        assert bps == Bps(mStreams[..i]);
        n := n + 1;
        if sequential && s.stops { break; }
      }
      ReachEnd(before, i, sequential);
      assert i == Reach(before, sequential);
      ReachKept(before, i, avg, goal, sequential);
      SetAverages(pps, bps, n);
      if old(Current()) && CanShare(avg, goal, sequential) { GoalMet(before, goal, sequential); }
    }
  }

  lemma BitRateIs(s: Stream)
    ensures BitRate(s) == Rate(s) * Weight(s)
  {
  }

  lemma NothingSummed(ss: seq<Stream>)
    ensures Pps(ss[..0]) == 0.0 && Bps(ss[..0]) == 0.0 && Enabled(ss[..0]) == 0
  {
  }

  lemma SumStep(ss: seq<Stream>, i: nat)
    requires i < |ss|
    ensures Pps(ss[..i + 1]) == Pps(ss[..i]) + if ss[i].enabled then Rate(ss[i]) else 0.0
    ensures Bps(ss[..i + 1]) == Bps(ss[..i]) + if ss[i].enabled then BitRate(ss[i]) else 0.0
    ensures Enabled(ss[..i + 1]) == Enabled(ss[..i]) + if ss[i].enabled then 1 else 0
  {
    hide Rate, BitRate;
    assert ss[..i + 1][..i] == ss[..i] && ss[..i + 1][i] == ss[i];
  }

  /** The loop ends after the stream that stops transmission, or at the end of the list. */
  lemma ReachEnd(ss: seq<Stream>, i: nat, sequential: bool)
    requires i <= |ss|
    ensures i == |ss| ==> Reach(ss[i..], sequential) == 0
  {
  }

  lemma ReachStep(ss: seq<Stream>, i: nat, sequential: bool)
    requires i < |ss|
    ensures Reach(ss[i..], sequential)
         == if ss[i].enabled && sequential && ss[i].stops then 1 else 1 + Reach(ss[i + 1..], sequential)
  {
    assert ss[i..][1..] == ss[i + 1..];
  }

  lemma FlagsKept(s: Stream, avg: Averages, goal: Goal, sequential: bool)
    requires Holds(s) && (s.enabled ==> CanShare(avg, goal, sequential))
    ensures var t := Shared(s, avg, goal, sequential);
            t.enabled == s.enabled && t.stops == s.stops && Weight(t) == Weight(s)
  {
    hide Share;
  }

  /** One round of the loop. */
  lemma OneMore(before: seq<Stream>, done: seq<Stream>, next: seq<Stream>, i: nat,
                avg: Averages, goal: Goal, sequential: bool)
    requires i < |before| && AllHold(before) && Shareable(before, i + 1, avg, goal, sequential)
    requires done == Redistributed(before, i, avg, goal, sequential)
    requires next == done[i := Shared(before[i], avg, goal, sequential)]
    ensures next == Redistributed(before, i + 1, avg, goal, sequential)
    ensures next[..i] == done[..i]
    ensures next[i].enabled == before[i].enabled && next[i].stops == before[i].stops
  {
    hide Share, Weight;
    FlagsKept(before[i], avg, goal, sequential);
  }

  /** The shares do not change how far the loops go. */
  lemma ReachKept(ss: seq<Stream>, n: nat, avg: Averages, goal: Goal, sequential: bool)
    requires n <= |ss| && AllHold(ss) && Shareable(ss, n, avg, goal, sequential)
    ensures Reach(Redistributed(ss, n, avg, goal, sequential), sequential) == Reach(ss, sequential)
  {
    hide Share, Weight;
    var r := Redistributed(ss, n, avg, goal, sequential);
    forall i | 0 <= i < |ss| ensures r[i].enabled == ss[i].enabled && r[i].stops == ss[i].stops {
      if i < n { FlagsKept(ss[i], avg, goal, sequential); }
    }
    SameReach(ss, r, sequential);
  }

  lemma {:induction false} SameReach(a: seq<Stream>, b: seq<Stream>, sequential: bool)
    requires |a| == |b| && forall i :: 0 <= i < |a| ==> a[i].enabled == b[i].enabled && a[i].stops == b[i].stops
    ensures Reach(a, sequential) == Reach(b, sequential)
    decreases |a|
  {
    if a != [] { SameReach(a[1..], b[1..], sequential); }
  }

  // ------- the goal is met -------

  function Times(a: real, k: real): real { a * k }

  function Ratio(a: real, b: real): real
    requires b != 0.0
  {
    a / b
  }

  lemma TimesAdds(a: real, b: real, k: real)
    ensures Times(a + b, k) == Times(a, k) + Times(b, k)
    ensures Times(0.0, k) == 0.0
  {
  }

  lemma Proportion(r: real, avg: real, goal: real)
    requires avg != 0.0
    ensures r + (r / avg) * (goal - avg) == r * (goal / avg)
  {
    assert (r / avg) * avg == r;
    assert (r / avg) * goal == r * (goal / avg);
  }

  /** In both modes a packet share is the rate times the same factor. */
  lemma PacketShareScales(s: Stream, avg: Averages, goal: real, sequential: bool)
    requires avg.pps != 0.0
    ensures PacketShare(s, avg, goal, sequential) == Times(Rate(s), Ratio(goal, avg.pps))
  {
    hide Rate;
    Proportion(Rate(s), avg.pps, goal);
  }

  lemma SequentialBits(s: Stream, avg: Averages, goal: real)
    requires avg.bps != 0.0
    ensures BitShare(s, avg, goal, true) * Weight(s) == Times(BitRate(s), Ratio(goal, avg.bps))
  {
    hide Rate, Weight;
    Exchange(Rate(s), goal / avg.bps, Weight(s));
  }

  lemma Exchange(a: real, b: real, c: real)
    ensures (a * b) * c == (a * c) * b
  {
  }

  lemma InterleavedBits(s: Stream, avg: Averages, goal: real)
    requires avg.pps != 0.0
    ensures BitShare(s, avg, goal, false) * Weight(s)
         == BitRate(s) + Times(Rate(s), Ratio(goal - avg.bps, avg.pps))
  {
    assert Weight(s) != 0.0;
    hide Rate, Weight;
    Spread(Rate(s), avg.pps, goal - avg.bps, Weight(s));
  }

  lemma Spread(r: real, avg: real, d: real, w: real)
    requires avg != 0.0 && w != 0.0
    ensures (r + (r / avg) * (d / w)) * w == r * w + r * (d / avg)
  {
    assert (d / w) * w == d;
    assert ((r / avg) * (d / w)) * w == (r / avg) * ((d / w) * w);
    assert (r / avg) * d == r * (d / avg);
  }

  /** What sharing does to the sums over the first `n` of a list that is shared throughout. */
  predicate Summed(ss: seq<Stream>, n: nat, avg: Averages, goal: Goal, sequential: bool)
    requires n <= |ss| && AllHold(ss) && CanShare(avg, goal, sequential)
  {
    var r := Redistributed(ss, |ss|, avg, goal, sequential);
    && Enabled(r[..n]) == Enabled(ss[..n])
    && match goal
       case Packets(p) => Pps(r[..n]) == Times(Pps(ss[..n]), Ratio(p, avg.pps))
       case Bits(b) =>
         if sequential then Bps(r[..n]) == Times(Bps(ss[..n]), Ratio(b, avg.bps))
         else Bps(r[..n]) == Bps(ss[..n]) + Times(Pps(ss[..n]), Ratio(b - avg.bps, avg.pps))
  }

  /** What the share of one stream adds. */
  lemma ShareAdds(s: Stream, avg: Averages, goal: Goal, sequential: bool)
    requires Holds(s) && s.enabled && CanShare(avg, goal, sequential)
    ensures var t := Shared(s, avg, goal, sequential);
            && t.enabled
            && match goal
               case Packets(p) => Rate(t) == Times(Rate(s), Ratio(p, avg.pps))
               case Bits(b) =>
                 if sequential then BitRate(t) == Times(BitRate(s), Ratio(b, avg.bps))
                 else BitRate(t) == BitRate(s) + Times(Rate(s), Ratio(b - avg.bps, avg.pps))
  {
    hide Rate, Weight, PacketShare, BitShare, WithRate, Holds, Times, Ratio;
    FlagsKept(s, avg, goal, sequential);
    RateHeld(s, Share(s, avg, goal, sequential));
    match goal
    case Packets(p) => PacketShareScales(s, avg, p, sequential);
    case Bits(b) => if sequential { SequentialBits(s, avg, b); } else { InterleavedBits(s, avg, b); }
  }

  lemma {:induction false} SharesSum(ss: seq<Stream>, n: nat, avg: Averages, goal: Goal, sequential: bool)
    requires n <= |ss| && AllHold(ss) && CanShare(avg, goal, sequential)
    ensures Summed(ss, n, avg, goal, sequential)
  {
    hide Rate, BitRate, Weight, Share, Shared, Holds, Pps, Bps, Enabled, Times, Ratio;
    var r := Redistributed(ss, |ss|, avg, goal, sequential);
    if n == 0 {
      NothingSummed(ss);
      NothingSummed(r);
      TimesAdds(0.0, 0.0, if goal.Packets? then Ratio(goal.rate, avg.pps) else if sequential then Ratio(goal.rate,
          avg.bps)
                          else Ratio(goal.rate - avg.bps, avg.pps));
    } else {
      var s := ss[n - 1];
      assert Holds(s);
      SharesSum(ss, n - 1, avg, goal, sequential);
      SumStep(ss, n - 1);
      SumStep(r, n - 1);
      FlagsKept(s, avg, goal, sequential);
      if s.enabled {
        ShareAdds(s, avg, goal, sequential);
        match goal
        case Packets(p) =>
          TimesAdds(Pps(ss[..n - 1]), Rate(s), Ratio(p, avg.pps));
          assert Pps(r[..n]) == Pps(r[..n - 1]) + Rate(r[n - 1]);
          assert Rate(r[n - 1]) == Times(Rate(s), Ratio(p, avg.pps));
          assert Pps(r[..n]) == Times(Pps(ss[..n]), Ratio(p, avg.pps));
        case Bits(b) =>
          assert Bps(r[..n]) == Bps(r[..n - 1]) + BitRate(r[n - 1]);
          if sequential {
            TimesAdds(Bps(ss[..n - 1]), BitRate(s), Ratio(b, avg.bps));
            assert Bps(r[..n]) == Times(Bps(ss[..n]), Ratio(b, avg.bps));
          } else {
            TimesAdds(Pps(ss[..n - 1]), Rate(s), Ratio(b - avg.bps, avg.pps));
            assert Bps(r[..n]) == Bps(ss[..n]) + Times(Pps(ss[..n]), Ratio(b - avg.bps, avg.pps));
          }
      }
    }
  }

  /** What the active streams get depends on them alone. */
  lemma ActiveShared(ss: seq<Stream>, avg: Averages, goal: Goal, sequential: bool)
    requires AllHold(ss) && CanShare(avg, goal, sequential)
    ensures var act := Active(ss, sequential);
            AllHold(act) && Active(Redistributed(ss, |act|, avg, goal, sequential), sequential)
                         == Redistributed(act, |act|, avg, goal, sequential)
  {
    hide Share, Reach, Shared;
    var act := Active(ss, sequential);
    ReachKept(ss, |act|, avg, goal, sequential);
    var r := Redistributed(ss, |act|, avg, goal, sequential);
    assert |r[..|act|]| == |act|;
    forall i | 0 <= i < |act| ensures r[..|act|][i] == Redistributed(act, |act|, avg, goal, sequential)[i] {}
  }

  lemma MeanReached(sum: real, n: nat, goal: real, sequential: bool)
    requires Average(sum, n, sequential) != 0.0
    ensures Average(Times(sum, Ratio(goal, Average(sum, n, sequential))), n, sequential) == goal
  {
    if sequential {
      Fraction(sum, n as real, goal);
    } else {
      assert sum * (goal / sum) == goal;
    }
  }

  lemma Fraction(sum: real, n: real, goal: real)
    requires n > 0.0 && sum != 0.0
    ensures sum / n != 0.0 && (sum * (goal / (sum / n))) / n == goal
  {
    var m := sum / n;
    assert m * n == sum;
    assert sum * (goal / m) == n * (m * (goal / m));
    assert m * (goal / m) == goal;
  }

  lemma SumReached(pps: real, bps: real, n: nat, goal: real)
    requires Average(pps, n, false) != 0.0
    ensures Average(bps + Times(pps, Ratio(goal - Average(bps, n, false), Average(pps, n, false))), n, false) == goal
  {
    assert pps * ((goal - bps) / pps) == goal - bps;
  }

  /** In either mode, for packets or bits, a port asked for a rate has that rate afterwards,
      provided the averages it starts from are its streams' own and not zero. */
  lemma GoalMet(ss: seq<Stream>, goal: Goal, sequential: bool)
    requires AllHold(ss)
    requires CanShare(Averages(AveragePps(ss, sequential), AverageBps(ss, sequential)), goal, sequential)
    ensures var avg := Averages(AveragePps(ss, sequential), AverageBps(ss, sequential));
            var r := Redistributed(ss, Reach(ss, sequential), avg, goal, sequential);
            match goal
            case Packets(p) => AveragePps(r, sequential) == p
            case Bits(b) => AverageBps(r, sequential) == b
  {
    hide Rate, Weight, Share, Shared, Reach, Pps, Bps, Enabled, Average, Times, Ratio;
    var avg := Averages(AveragePps(ss, sequential), AverageBps(ss, sequential));
    var act := Active(ss, sequential);
    ActiveShared(ss, avg, goal, sequential);
    var r := Redistributed(act, |act|, avg, goal, sequential);
    assert act[..|act|] == act && r[..|act|] == r;
    SharesSum(act, |act|, avg, goal, sequential);
    match goal
    case Packets(p) => MeanReached(Pps(act), Enabled(act), p, sequential);
    case Bits(b) =>
      if sequential {
        MeanReached(Bps(act), Enabled(act), b, true);
      } else {
        SumReached(Pps(act), Bps(act), Enabled(act), b);
      }
  }

  /** Asking for packets keeps the proportions of the active streams, and so does asking for bits in
      sequential mode; in interleaved mode the bits that are added or taken away are in proportion to
      the packets of each. */
  lemma RatiosKept(ss: seq<Stream>, avg: Averages, goal: Goal, sequential: bool, i: nat, j: nat)
    requires AllHold(ss) && CanShare(avg, goal, sequential)
    requires i < Reach(ss, sequential) && j < Reach(ss, sequential) && ss[i].enabled && ss[j].enabled
    ensures var r := Redistributed(ss, Reach(ss, sequential), avg, goal, sequential);
            match goal
            case Packets(_) => Times(Rate(r[i]), Rate(ss[j])) == Times(Rate(r[j]), Rate(ss[i]))
            case Bits(_) =>
              if sequential then Times(BitRate(r[i]), BitRate(ss[j])) == Times(BitRate(r[j]), BitRate(ss[i]))
              else Times(BitRate(r[i]) - BitRate(ss[i]), Rate(ss[j]))
                   == Times(BitRate(r[j]) - BitRate(ss[j]), Rate(ss[i]))
  {
    assert Holds(ss[i]) && Holds(ss[j]);
    hide Rate, BitRate, Reach, Shared, Share, Holds, Times, Ratio;
    var r := Redistributed(ss, Reach(ss, sequential), avg, goal, sequential);
    ShareAdds(ss[i], avg, goal, sequential);
    ShareAdds(ss[j], avg, goal, sequential);
    match goal
    case Packets(p) => CrossProduct(Rate(r[i]), Rate(r[j]), Rate(ss[i]), Rate(ss[j]), Ratio(p, avg.pps));
    case Bits(b) =>
      if sequential {
        CrossProduct(BitRate(r[i]), BitRate(r[j]), BitRate(ss[i]), BitRate(ss[j]), Ratio(b, avg.bps));
      } else {
        CrossProduct(BitRate(r[i]) - BitRate(ss[i]), BitRate(r[j]) - BitRate(ss[j]), Rate(ss[i]), Rate(ss[j]),
                     Ratio(b - avg.bps, avg.pps));
      }
  }

  lemma CrossProduct(x: real, y: real, a: real, b: real, k: real)
    requires x == Times(a, k) && y == Times(b, k)
    ensures Times(x, b) == Times(y, a)
  {
  }
}
