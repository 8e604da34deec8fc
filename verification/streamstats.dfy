/**
 Stream statistics: each record sets one cell and is added to a total per port, a total per
 stream guid and a grand total, all in 64-bit unsigned arithmetic.
 */
module StreamStats {
  import opened Unsigned

  const AGGR_GUID: nat := 0xFFFF_FFFF

  datatype Port = Port(portGroup: nat, port: nat)

  datatype Counters = Counters(rxPkts: uint64, txPkts: uint64, rxBytes: uint64, txBytes: uint64)

  /** Totals per guid keep packets and their loss, a signed number. */
  datatype Totals = Totals(rxPkts: uint64, txPkts: uint64, pktLoss: int)

  datatype Record = Record(guid: nat, port: Port, counters: Counters)

  const ZERO := Counters(0, 0, 0, 0)
  const NO_TOTALS := Totals(0, 0, 0)

  function Add64(a: int, b: int): uint64 { (a + b) % TWO64 }

  /** A 64-bit word read as a signed number. */
  function Signed(x: int): (s: int)
    ensures -0x8000_0000_0000_0000 <= s < 0x8000_0000_0000_0000 && (s - x) % TWO64 == 0
  {
    var w := x % TWO64;
    if w < TWO64 / 2 then w else w - TWO64
  }

  function Plus(a: Counters, b: Counters): Counters {
    Counters(Add64(a.rxPkts, b.rxPkts), Add64(a.txPkts, b.txPkts),
             Add64(a.rxBytes, b.rxBytes), Add64(a.txBytes, b.txBytes))
  }

  function Counted(t: Totals, c: Counters): Totals {
    Totals(Add64(t.rxPkts, c.rxPkts), Add64(t.txPkts, c.txPkts), Signed(t.pktLoss + (c.txPkts - c.rxPkts)))
  }

  // ------- what the totals mean -------

  datatype Field = RxPkts | TxPkts | RxBytes | TxBytes

  function Get(c: Counters, f: Field): uint64 {
    match f
    case RxPkts => c.rxPkts
    case TxPkts => c.txPkts
    case RxBytes => c.rxBytes
    case TxBytes => c.txBytes
  }

  /** All records, those of a guid, those of a port, or those of both. */
  datatype Select = All | OfGuid(guid: nat) | OfPort(port: Port) | Of(guid: nat, port: Port)

  predicate Selects(s: Select, r: Record) {
    match s
    case All => true
    case OfGuid(g) => r.guid == g
    case OfPort(p) => r.port == p
    case Of(g, p) => r.guid == g && r.port == p
  }

  /** The exact sum over the records received so far. */
  function Sum(h: seq<Record>, s: Select, f: Field): nat {
    if h == [] then 0
    else Sum(h[..|h| - 1], s, f) + if Selects(s, h[|h| - 1]) then Get(h[|h| - 1].counters, f) else 0
  }

  /** The counters of the last record of a guid and port. */
  function Cell(h: seq<Record>, g: nat, p: Port): Counters {
    if h == [] then ZERO
    else if Selects(Of(g, p), h[|h| - 1]) then h[|h| - 1].counters
    else Cell(h[..|h| - 1], g, p)
  }

  function Value(m: map<(nat, Port), Counters>, g: nat, p: Port): Counters {
    if (g, p) in m then m[(g, p)] else ZERO
  }

  function TotalsOf(m: map<nat, Totals>, g: nat): Totals { if g in m then m[g] else NO_TOTALS }

  function PortSums(h: seq<Record>, p: Port): Counters {
    Counters(Sum(h, OfPort(p), RxPkts) % TWO64, Sum(h, OfPort(p), TxPkts) % TWO64,
             Sum(h, OfPort(p), RxBytes) % TWO64, Sum(h, OfPort(p), TxBytes) % TWO64)
  }

  function GuidSums(h: seq<Record>, s: Select): Totals {
    Totals(Sum(h, s, RxPkts) % TWO64, Sum(h, s, TxPkts) % TWO64, Signed(Sum(h, s, TxPkts) - Sum(h, s, RxPkts)))
  }

  predicate NoneAggregate(h: seq<Record>) { forall i :: 0 <= i < |h| ==> h[i].guid != AGGR_GUID }

  /** One entry of the list that a port group sends. */
  datatype Item = Item(guid: nat, portId: nat, counters: Counters)

  function Received(portGroupId: nat, stats: seq<Item>): (h: seq<Record>)
    ensures |h| == |stats|
  {
    seq(|stats|, i requires 0 <= i < |stats| =>
      Record(stats[i].guid, Port(portGroupId, stats[i].portId), stats[i].counters))
  }

  ghost predicate CellsHold(m: map<(nat, Port), Counters>, h: seq<Record>) {
    && (forall g, p :: g != AGGR_GUID ==> Value(m, g, p) == Cell(h, g, p))
    && (forall p :: Value(m, AGGR_GUID, p) == PortSums(h, p))
  }

  ghost predicate TotalsHold(m: map<nat, Totals>, h: seq<Record>) {
    && (forall g :: g != AGGR_GUID ==> TotalsOf(m, g) == GuidSums(h, OfGuid(g)))
    && TotalsOf(m, AGGR_GUID) == GuidSums(h, All)
  }

  predicate DistinctList<T(==)>(s: seq<T>) { forall i, j :: 0 <= i < j < |s| ==> s[i] != s[j] }

  /** The lists name every guid and port of the records, each once. */
  predicate Lists(h: seq<Record>, gs: seq<nat>, ps: seq<Port>) {
    && DistinctList(gs) && DistinctList(ps)
    && forall i :: 0 <= i < |h| ==> h[i].guid in gs && h[i].port in ps
  }

  /** The rows without the aggregate ones; every list that arrives ends with such a row. */
  function Plain(gs: seq<nat>): (r: seq<nat>)
    ensures AGGR_GUID !in r
  {
    if gs == [] then []
    else
      var rest := Plain(gs[..|gs| - 1]);
      if gs[|gs| - 1] == AGGR_GUID then rest else rest + [gs[|gs| - 1]]
  }

  predicate Sends(h: seq<Record>, g: nat) { exists i :: 0 <= i < |h| && h[i].guid == g }

  predicate Reports(h: seq<Record>, p: Port) { exists i :: 0 <= i < |h| && h[i].port == p }

  /** The lists name the guids and ports of the records and no others. */
  ghost predicate ListsHold(h: seq<Record>, guidList: seq<nat>, ps: seq<Port>) {
    && Lists(h, Plain(guidList), ps)
    && (forall g :: g in Plain(guidList) ==> Sends(h, g))
    && (forall p :: p in ps ==> Reports(h, p))
  }

  // ------- the tables -------

  class StreamStatsModel {
    var streamStats: map<(nat, Port), Counters>
    var aggrGuidStats: map<nat, Totals>
    var guidList: seq<nat>
    var portList: seq<Port>

    /** The tables hold what the records `h` add up to, and their rows and columns are listed. */
    ghost predicate Holds(h: seq<Record>)
      reads this
    {
      CellsHold(streamStats, h) && TotalsHold(aggrGuidStats, h) && ListsHold(h, guidList, portList)
    }

    constructor ()
      ensures Holds([]) && guidList == [] && portList == []
    {
      new;
      ClearStats();
    }

    method ClearStats()
      modifies this
      ensures Holds([]) && guidList == [] && portList == []
    {
      streamStats, aggrGuidStats, guidList, portList := map[], map[], [], [];
    }

    /** One round of the loop.  The cell and the total of its port are references into one
        table, so a record with the aggregate guid is added to itself before it is counted. */
    method AppendRecord(r: Record, ghost h: seq<Record>)
      modifies this
      ensures old(Holds(h)) && r.guid != 0xFFFF_FFFF ==> Holds(h + [r])
      ensures r.guid == 0xFFFF_FFFF ==>
        var (before, after) := (TotalsOf(old(aggrGuidStats), r.guid).rxPkts, TotalsOf(aggrGuidStats, r.guid).rxPkts);
        && after == Add64(before, 4 * r.counters.rxPkts)
        && (after == Add64(before, r.counters.rxPkts) <==> r.counters.rxPkts == 0)
      ensures portList == WithNew(old(portList), r.port)
      ensures guidList == WithNew(old(guidList), r.guid)
    {
      hide Sum, Cell, Signed, PortSums, GuidSums, Plus, Counted, Lists, Plain;
      streamStats := streamStats[(r.guid, r.port) := r.counters];
      var aggrPort := Value(streamStats, AGGR_GUID, r.port);
      streamStats := streamStats[(AGGR_GUID, r.port) := Plus(aggrPort, r.counters)];
      var ss := streamStats[(r.guid, r.port)];
      ghost var grand := TotalsOf(aggrGuidStats, AGGR_GUID);
      aggrGuidStats := aggrGuidStats[r.guid := Counted(TotalsOf(aggrGuidStats, r.guid), ss)];
      aggrGuidStats := aggrGuidStats[AGGR_GUID := Counted(TotalsOf(aggrGuidStats, AGGR_GUID), ss)];
      if r.port !in portList { portList := portList + [r.port]; }
      if r.guid !in guidList { guidList := guidList + [r.guid]; }
      if r.guid == AGGR_GUID {
        FourTimes(grand, r.counters);
        AggregateGuidIff(grand.rxPkts, r.counters);
      } else if old(Holds(h)) {
        CellsStep(old(streamStats), streamStats, h, r);
        TotalsStep(old(aggrGuidStats), aggrGuidStats, h, r);
        ListsStep(old(guidList), old(portList), h, r);
      }
    }

    /** The statistics of one port group arrive. */
    method AppendStreamStatsList(portGroupId: nat, stats: seq<Item>, ghost h: seq<Record>)
      requires Holds(h)
      modifies this
      ensures NoneAggregate(Received(portGroupId, stats)) ==> Holds(h + Received(portGroupId, stats))
      ensures guidList != [] ==> guidList[|guidList| - 1] == 0xFFFF_FFFF
      ensures NoneAggregate(Received(portGroupId, stats)) ==> Plain(old(guidList)) <= Plain(guidList)
    {
      hide CellsHold, TotalsHold, ListsHold, Value, TotalsOf, Plain;
      ghost var rs := Received(portGroupId, stats);
      assert h + rs[..0] == h;
      for i := 0 to |stats|
        invariant NoneAggregate(rs) ==> Holds(h + rs[..i]) && Plain(old(guidList)) <= Plain(guidList)
      {
        PlainSnoc(guidList, stats[i].guid);
        AppendRecord(Record(stats[i].guid, Port(portGroupId, stats[i].portId), stats[i].counters), h + rs[..i]);
        assert h + rs[..i] + [rs[i]] == h + rs[..i + 1];
      }
      assert h + rs[..|rs|] == h + rs;
      if |guidList| > 0 {
        AggregateRow(h + rs, guidList, portList);
        guidList := guidList + [AGGR_GUID];
      }
    }
  }

  lemma SumStep(h: seq<Record>, r: Record, s: Select, f: Field)
    ensures Sum(h + [r], s, f) == Sum(h, s, f) + if Selects(s, r) then Get(r.counters, f) else 0
  {
    assert (h + [r])[..|h|] == h;
  }

  lemma CellStep(h: seq<Record>, r: Record, g: nat, p: Port)
    ensures Cell(h + [r], g, p) == if Selects(Of(g, p), r) then r.counters else Cell(h, g, p)
  {
    assert (h + [r])[..|h|] == h;
  }

  lemma AddMod(a: nat, b: nat)
    ensures (a % TWO64 + b) % TWO64 == (a + b) % TWO64
  {
  }

  lemma PortSumsStep(h: seq<Record>, r: Record, p: Port)
    ensures PortSums(h + [r], p) == if r.port == p then Plus(PortSums(h, p), r.counters) else PortSums(h, p)
  {
    hide Sum, Add64;
    ColumnStep(h, r, p, RxPkts);
    ColumnStep(h, r, p, TxPkts);
    ColumnStep(h, r, p, RxBytes);
    ColumnStep(h, r, p, TxBytes);
  }

  lemma ColumnStep(h: seq<Record>, r: Record, p: Port, f: Field)
    ensures Sum(h + [r], OfPort(p), f) % TWO64
         == if r.port == p then Add64(Sum(h, OfPort(p), f) % TWO64, Get(r.counters, f))
            else Sum(h, OfPort(p), f) % TWO64
  {
    hide Sum, Get;
    SumStep(h, r, OfPort(p), f);
    AddMod(Sum(h, OfPort(p), f), Get(r.counters, f));
  }

  lemma SignedStep(a: int, d: int)
    ensures Signed(Signed(a) + d) == Signed(a + d)
  {
  }

  lemma GuidSumsStep(h: seq<Record>, r: Record, s: Select)
    ensures GuidSums(h + [r], s) == if Selects(s, r) then Counted(GuidSums(h, s), r.counters) else GuidSums(h, s)
  {
    hide Sum, Signed;
    SumStep(h, r, s, RxPkts);
    SumStep(h, r, s, TxPkts);
    AddMod(Sum(h, s, RxPkts), r.counters.rxPkts);
    AddMod(Sum(h, s, TxPkts), r.counters.txPkts);
    SignedStep(Sum(h, s, TxPkts) - Sum(h, s, RxPkts), r.counters.txPkts - r.counters.rxPkts);
  }

  lemma CellsStep(m: map<(nat, Port), Counters>, n: map<(nat, Port), Counters>, h: seq<Record>, r: Record)
    requires CellsHold(m, h) && r.guid != AGGR_GUID
    requires n == m[(r.guid, r.port) := r.counters]
                   [(AGGR_GUID, r.port) := Plus(Value(m, AGGR_GUID, r.port), r.counters)]
    ensures CellsHold(n, h + [r])
  {
    hide Plus, Sum, Cell, PortSums;
    forall g, p | g != AGGR_GUID ensures Value(n, g, p) == Cell(h + [r], g, p) {
      CellStep(h, r, g, p);
    }
    forall p ensures Value(n, AGGR_GUID, p) == PortSums(h + [r], p) {
      PortSumsStep(h, r, p);
    }
  }

  lemma TotalsStep(m: map<nat, Totals>, n: map<nat, Totals>, h: seq<Record>, r: Record)
    requires TotalsHold(m, h) && r.guid != AGGR_GUID
    requires n == m[r.guid := Counted(TotalsOf(m, r.guid), r.counters)]
                   [AGGR_GUID := Counted(TotalsOf(m, AGGR_GUID), r.counters)]
    ensures TotalsHold(n, h + [r])
  {
    hide Counted, Sum, GuidSums;
    forall g | g != AGGR_GUID ensures TotalsOf(n, g) == GuidSums(h + [r], OfGuid(g)) {
      GuidSumsStep(h, r, OfGuid(g));
    }
    GuidSumsStep(h, r, All);
  }

  lemma PlainSnoc(gs: seq<nat>, g: nat)
    ensures Plain(gs + [g]) == if g == AGGR_GUID then Plain(gs) else Plain(gs) + [g]
    ensures g != AGGR_GUID ==> (g in gs <==> g in Plain(gs))
  {
    assert (gs + [g])[..|gs|] == gs;
    if g != AGGR_GUID { PlainMembers(gs, g); }
  }

  lemma {:induction false} PlainMembers(gs: seq<nat>, g: nat)
    requires g != AGGR_GUID
    ensures g in gs <==> g in Plain(gs)
  {
    if gs != [] {
      var n := |gs| - 1;
      PlainMembers(gs[..n], g);
      assert gs == gs[..n] + [gs[n]];
    }
  }

  function WithNew<T(==)>(s: seq<T>, x: T): seq<T> { if x in s then s else s + [x] }

  lemma WithNewMember<T>(s: seq<T>, x: T, y: T)
    ensures y in WithNew(s, x) <==> y in s || y == x
  {
  }

  lemma SendsStep(h: seq<Record>, r: Record, g: nat, p: Port)
    ensures Sends(h, g) || g == r.guid ==> Sends(h + [r], g)
    ensures Reports(h, p) || p == r.port ==> Reports(h + [r], p)
  {
    var (next, k) := (h + [r], |h|);
    assert next[k] == r;
    if Sends(h, g) {
      var i :| 0 <= i < k && h[i].guid == g;
      assert next[i].guid == g;
    }
    if Reports(h, p) {
      var i :| 0 <= i < k && h[i].port == p;
      assert next[i].port == p;
    }
  }

  lemma NamesStep(h: seq<Record>, gs: seq<nat>, ps: seq<Port>, r: Record)
    requires Lists(h, gs, ps)
    ensures Lists(h + [r], WithNew(gs, r.guid), WithNew(ps, r.port))
  {
    forall i | 0 <= i <= |h|
      ensures (h + [r])[i].guid in WithNew(gs, r.guid) && (h + [r])[i].port in WithNew(ps, r.port)
    {
      WithNewMember(gs, r.guid, (h + [r])[i].guid);
      WithNewMember(ps, r.port, (h + [r])[i].port);
    }
  }

  lemma ListsStep(gs: seq<nat>, ps: seq<Port>, h: seq<Record>, r: Record)
    requires ListsHold(h, gs, ps) && r.guid != AGGR_GUID
    ensures ListsHold(h + [r], WithNew(gs, r.guid), WithNew(ps, r.port))
  {
    PlainSnoc(gs, r.guid);
    var plain := Plain(gs);
    assert Plain(WithNew(gs, r.guid)) == WithNew(plain, r.guid);
    hide Plain, Lists, Sends, Reports, WithNew;
    NamesStep(h, plain, ps, r);
    forall g | g in WithNew(plain, r.guid) ensures Sends(h + [r], g) {
      WithNewMember(plain, r.guid, g);
      SendsStep(h, r, g, r.port);
    }
    forall p | p in WithNew(ps, r.port) ensures Reports(h + [r], p) {
      WithNewMember(ps, r.port, p);
      SendsStep(h, r, 0, p);
    }
  }

  lemma AggregateRow(h: seq<Record>, gs: seq<nat>, ps: seq<Port>)
    ensures Plain(gs + [AGGR_GUID]) == Plain(gs)
    ensures ListsHold(h, gs + [AGGR_GUID], ps) <==> ListsHold(h, gs, ps)
  {
    PlainSnoc(gs, AGGR_GUID);
  }

  lemma FourTimes(t: Totals, c: Counters)
    ensures Counted(Counted(t, Plus(c, c)), Plus(c, c)).rxPkts == Add64(t.rxPkts, 4 * c.rxPkts)
  {
    AddMod(t.rxPkts + 2 * c.rxPkts, 2 * c.rxPkts);
    Doubled(t.rxPkts, 2 * c.rxPkts);
    Doubled(Add64(t.rxPkts, 2 * c.rxPkts), 2 * c.rxPkts);
  }

  lemma Doubled(a: nat, b: nat)
    ensures (a + b % TWO64) % TWO64 == (a + b) % TWO64
  {
  }

  /** With the aggregate guid the grand total is right only when there was nothing to add. */
  lemma AggregateGuidIff(total: uint64, c: Counters)
    ensures Add64(total, 4 * c.rxPkts) == Add64(total, c.rxPkts) <==> c.rxPkts == 0
  {
    var x, y := total + 4 * c.rxPkts, total + c.rxPkts;
    if x % TWO64 == y % TWO64 {
      var k := x / TWO64 - y / TWO64;
      assert 3 * c.rxPkts == TWO64 * k;
      assert 0 <= k < 3;
      assert TWO64 % 3 == 1;
    }
  }

  // ------- conservation -------

  /** The sums of several selections, added up. */
  function SumAll(h: seq<Record>, ss: seq<Select>, f: Field): nat {
    if ss == [] then 0 else SumAll(h, ss[..|ss| - 1], f) + Sum(h, ss[|ss| - 1], f)
  }

  function Hits(ss: seq<Select>, r: Record): nat {
    if ss == [] then 0 else Hits(ss[..|ss| - 1], r) + if Selects(ss[|ss| - 1], r) then 1 else 0
  }

  lemma {:induction false} SumAllStep(h: seq<Record>, r: Record, ss: seq<Select>, f: Field)
    ensures SumAll(h + [r], ss, f) == SumAll(h, ss, f) + Hits(ss, r) * Get(r.counters, f)
    decreases |ss|
  {
    hide Sum, Selects, Get;
    if ss != [] {
      SumAllStep(h, r, ss[..|ss| - 1], f);
      SumStep(h, r, ss[|ss| - 1], f);
      OneHitMore(Hits(ss[..|ss| - 1], r), Get(r.counters, f));
    }
  }

  lemma OneHitMore(n: nat, x: nat)
    ensures (n + 1) * x == n * x + x
  {
  }

  lemma {:induction false} SumAllNone(ss: seq<Select>, f: Field)
    ensures SumAll([], ss, f) == 0
  {
    if ss != [] { SumAllNone(ss[..|ss| - 1], f); }
  }

  /** Selections that split up another one: each of its records is in one part. */
  predicate Splits(h: seq<Record>, ss: seq<Select>, whole: Select) {
    forall i :: 0 <= i < |h| ==> Hits(ss, h[i]) == if Selects(whole, h[i]) then 1 else 0
  }

  lemma ZeroOrOnce(n: nat, x: nat)
    ensures n == 0 ==> n * x == 0
    ensures n == 1 ==> n * x == x
  {
  }

  lemma {:induction false} PartsAddUp(h: seq<Record>, ss: seq<Select>, whole: Select, f: Field)
    requires Splits(h, ss, whole)
    ensures SumAll(h, ss, f) == Sum(h, whole, f)
  {
    hide Selects, Get, Hits, SumAll;
    if h == [] {
      SumAllNone(ss, f);
    } else {
      var n := |h| - 1;
      assert Splits(h[..n], ss, whole) by {
        forall i | 0 <= i < n ensures Hits(ss, h[..n][i]) == if Selects(whole, h[..n][i]) then 1 else 0 {
          assert h[..n][i] == h[i];
        }
      }
      PartsAddUp(h[..n], ss, whole, f);
      assert h[..n] + [h[n]] == h;
      SumAllStep(h[..n], h[n], ss, f);
      SumStep(h[..n], h[n], whole, f);
      assert Hits(ss, h[n]) == if Selects(whole, h[n]) then 1 else 0;
      hide Sum, Splits;
      ZeroOrOnce(Hits(ss, h[n]), Get(h[n].counters, f));
    }
  }

  lemma {:induction false} HitsNone(ss: seq<Select>, r: Record)
    requires forall j :: 0 <= j < |ss| ==> !Selects(ss[j], r)
    ensures Hits(ss, r) == 0
  {
    hide Selects;
    if ss != [] { HitsNone(ss[..|ss| - 1], r); }
  }

  lemma {:induction false} HitsOnce(ss: seq<Select>, r: Record, k: nat)
    requires k < |ss| && Selects(ss[k], r)
    requires forall j :: 0 <= j < |ss| && j != k ==> !Selects(ss[j], r)
    ensures Hits(ss, r) == 1
  {
    hide Selects;
    var n := |ss| - 1;
    if k == n { HitsNone(ss[..n], r); } else { HitsOnce(ss[..n], r, k); }
  }

  function Guids(gs: seq<nat>): seq<Select> { seq(|gs|, i requires 0 <= i < |gs| => OfGuid(gs[i])) }

  function Ports(ps: seq<Port>): seq<Select> { seq(|ps|, i requires 0 <= i < |ps| => OfPort(ps[i])) }

  function PortsOf(g: nat, ps: seq<Port>): seq<Select> { seq(|ps|, i requires 0 <= i < |ps| => Of(g, ps[i])) }

  function GuidsOf(gs: seq<nat>, p: Port): seq<Select> { seq(|gs|, i requires 0 <= i < |gs| => Of(gs[i], p)) }

  lemma GuidsSplit(h: seq<Record>, gs: seq<nat>, ps: seq<Port>, p: Port)
    requires Lists(h, gs, ps)
    ensures Splits(h, Guids(gs), All) && Splits(h, GuidsOf(gs, p), OfPort(p))
  {
    forall i | 0 <= i < |h|
      ensures Hits(Guids(gs), h[i]) == 1
      ensures Hits(GuidsOf(gs, p), h[i]) == if h[i].port == p then 1 else 0
    {
      var k :| 0 <= k < |gs| && gs[k] == h[i].guid;
      HitsOnce(Guids(gs), h[i], k);
      if h[i].port == p { HitsOnce(GuidsOf(gs, p), h[i], k); } else { HitsNone(GuidsOf(gs, p), h[i]); }
    }
  }

  lemma PortsSplit(h: seq<Record>, gs: seq<nat>, ps: seq<Port>, g: nat)
    requires Lists(h, gs, ps)
    ensures Splits(h, Ports(ps), All) && Splits(h, PortsOf(g, ps), OfGuid(g))
  {
    forall i | 0 <= i < |h|
      ensures Hits(Ports(ps), h[i]) == 1
      ensures Hits(PortsOf(g, ps), h[i]) == if h[i].guid == g then 1 else 0
    {
      var k :| 0 <= k < |ps| && ps[k] == h[i].port;
      HitsOnce(Ports(ps), h[i], k);
      if h[i].guid == g { HitsOnce(PortsOf(g, ps), h[i], k); } else { HitsNone(PortsOf(g, ps), h[i]); }
    }
  }

  // ------- cells -------

  predicate DistinctKeys(h: seq<Record>) {
    forall i, j :: 0 <= i < j < |h| ==> h[i].guid != h[j].guid || h[i].port != h[j].port
  }

  lemma {:induction false} CellUnset(h: seq<Record>, g: nat, p: Port, f: Field)
    requires forall i :: 0 <= i < |h| ==> !Selects(Of(g, p), h[i])
    ensures Cell(h, g, p) == ZERO && Sum(h, Of(g, p), f) == 0
  {
    if h != [] { CellUnset(h[..|h| - 1], g, p, f); }
  }

  /** Without a repeated key a cell holds all that was added up for it. */
  lemma {:induction false} CellIsSum(h: seq<Record>, g: nat, p: Port, f: Field)
    requires DistinctKeys(h)
    ensures Get(Cell(h, g, p), f) == Sum(h, Of(g, p), f)
  {
    if h != [] {
      var n := |h| - 1;
      if Selects(Of(g, p), h[n]) { CellUnset(h[..n], g, p, f); } else { CellIsSum(h[..n], g, p, f); }
    }
  }

  /** Records with the keys `keys` and the counters `cs`. */
  function Records(keys: seq<(nat, Port)>, cs: seq<Counters>): (h: seq<Record>)
    requires |keys| == |cs|
    ensures |h| == |keys|
  {
    seq(|keys|, i requires 0 <= i < |keys| => Record(keys[i].0, keys[i].1, cs[i]))
  }

  ghost predicate CellsComplete(keys: seq<(nat, Port)>) {
    forall cs: seq<Counters>, g: nat, p: Port :: |cs| == |keys| ==>
      Cell(Records(keys, cs), g, p).rxPkts == Sum(Records(keys, cs), Of(g, p), RxPkts) % TWO64
  }

  /** One packet in the earlier of two records with the same key is in the totals only. */
  lemma {:induction false} LostPacket(h: seq<Record>, i: nat, j: nat)
    requires i < j < |h| && h[i].guid == h[j].guid && h[i].port == h[j].port
    requires forall k :: 0 <= k < |h| ==> h[k].counters.rxPkts == if k == i then 1 else 0
    ensures Cell(h, h[i].guid, h[i].port).rxPkts == 0 && Sum(h, Of(h[i].guid, h[i].port), RxPkts) == 1
  {
    var n := |h| - 1;
    if j == n {
      OnePacket(h[..n], i);
      assert h[..n][i] == h[i];
    } else {
      assert h[..n][i] == h[i] && h[..n][j] == h[j];
      LostPacket(h[..n], i, j);
    }
  }

  lemma {:induction false} NoPacket(h: seq<Record>, s: Select)
    requires forall k :: 0 <= k < |h| ==> h[k].counters.rxPkts == 0
    ensures Sum(h, s, RxPkts) == 0
  {
    if h != [] { NoPacket(h[..|h| - 1], s); }
  }

  lemma {:induction false} OnePacket(h: seq<Record>, i: nat)
    requires i < |h| && forall k :: 0 <= k < |h| ==> h[k].counters.rxPkts == if k == i then 1 else 0
    ensures Sum(h, Of(h[i].guid, h[i].port), RxPkts) == 1
  {
    var n := |h| - 1;
    if i == n {
      NoPacket(h[..n], Of(h[i].guid, h[i].port));
    } else {
      assert h[..n][i] == h[i];
      OnePacket(h[..n], i);
    }
  }

  /** The cells show all that the totals count, whatever the counters, if and only if no guid
      and port come twice. */
  lemma CellsCompleteIff(keys: seq<(nat, Port)>)
    ensures CellsComplete(keys) <==> DistinctList(keys)
  {
    if DistinctList(keys) {
      forall cs: seq<Counters>, g: nat, p: Port | |cs| == |keys|
        ensures Cell(Records(keys, cs), g, p).rxPkts == Sum(Records(keys, cs), Of(g, p), RxPkts) % TWO64
      {
        var h := Records(keys, cs);
        forall i, j | 0 <= i < j < |h| ensures h[i].guid != h[j].guid || h[i].port != h[j].port {
          assert keys[i] != keys[j];
        }
        CellIsSum(h, g, p, RxPkts);
      }
    } else {
      var i, j :| 0 <= i < j < |keys| && keys[i] == keys[j];
      var cs := seq(|keys|, k => if k == i then Counters(1, 0, 0, 0) else ZERO);
      LostPacket(Records(keys, cs), i, j);
      assert Cell(Records(keys, cs), keys[i].0, keys[i].1).rxPkts != Sum(Records(keys, cs), Of(keys[i].0,
          keys[i].1), RxPkts) % TWO64;
    }
  }

  // ------- the tables conserve -------

  function Total(xs: seq<uint64>): nat { if xs == [] then 0 else Total(xs[..|xs| - 1]) + xs[|xs| - 1] }

  /** Adding up 64-bit remainders gives the sum, up to a multiple of 2^64. */
  lemma {:induction false} RemaindersAddUp(h: seq<Record>, ss: seq<Select>, xs: seq<uint64>, f: Field)
    requires |xs| == |ss| && forall i :: 0 <= i < |ss| ==> xs[i] == Sum(h, ss[i], f) % TWO64
    ensures Total(xs) % TWO64 == SumAll(h, ss, f) % TWO64
    decreases |ss|
  {
    hide Sum;
    if ss != [] {
      var n := |ss| - 1;
      RemaindersAddUp(h, ss[..n], xs[..n], f);
      TwoRemainders(Total(xs[..n]), SumAll(h, ss[..n], f), Sum(h, ss[n], f));
    }
  }

  lemma TwoRemainders(a: nat, b: nat, c: nat)
    requires a % TWO64 == b % TWO64
    ensures (a + c % TWO64) % TWO64 == (b + c) % TWO64
  {
  }

  function TotalGet(t: Totals, f: Field): uint64
    requires f.RxPkts? || f.TxPkts?
  {
    if f.RxPkts? then t.rxPkts else t.txPkts
  }

  function GuidColumn(m: map<nat, Totals>, gs: seq<nat>, f: Field): (xs: seq<uint64>)
    requires f.RxPkts? || f.TxPkts?
    ensures |xs| == |gs| && forall i :: 0 <= i < |gs| ==> xs[i] == TotalGet(TotalsOf(m, gs[i]), f)
  {
    seq(|gs|, i requires 0 <= i < |gs| => TotalGet(TotalsOf(m, gs[i]), f))
  }

  /** The cells of a row, for the ports `ps`. */
  function Row(m: map<(nat, Port), Counters>, g: nat, ps: seq<Port>, f: Field): (xs: seq<uint64>)
    ensures |xs| == |ps| && forall i :: 0 <= i < |ps| ==> xs[i] == Get(Value(m, g, ps[i]), f)
  {
    seq(|ps|, i requires 0 <= i < |ps| => Get(Value(m, g, ps[i]), f))
  }

  function Column(m: map<(nat, Port), Counters>, gs: seq<nat>, p: Port, f: Field): (xs: seq<uint64>)
    ensures |xs| == |gs| && forall i :: 0 <= i < |gs| ==> xs[i] == Get(Value(m, gs[i], p), f)
  {
    seq(|gs|, i requires 0 <= i < |gs| => Get(Value(m, gs[i], p), f))
  }

  /** The grand total is the sum of the totals of the guids and of those of the ports. */
  lemma GrandTotal(t: map<nat, Totals>, m: map<(nat, Port), Counters>, h: seq<Record>, gs: seq<nat>, ps: seq<Port>,
      f: Field)
    requires TotalsHold(t, h) && CellsHold(m, h) && Lists(h, gs, ps)
    requires AGGR_GUID !in gs && (f.RxPkts? || f.TxPkts?)
    ensures TotalGet(TotalsOf(t, AGGR_GUID), f) == Total(GuidColumn(t, gs, f)) % TWO64
    ensures TotalGet(TotalsOf(t, AGGR_GUID), f) == Total(Row(m, AGGR_GUID, ps, f)) % TWO64
  {
    hide Sum, Total, SumAll, Splits, Lists;
    GuidsSplit(h, gs, ps, Port(0, 0));
    PortsSplit(h, gs, ps, 0);
    PartsAddUp(h, Guids(gs), All, f);
    PartsAddUp(h, Ports(ps), All, f);
    RemaindersAddUp(h, Guids(gs), GuidColumn(t, gs, f), f);
    RemaindersAddUp(h, Ports(ps), Row(m, AGGR_GUID, ps, f), f);
  }

  /** Without repeated keys the totals of a guid and of a port are the sums of their cells, and
      so is the grand total of the totals of the ports; every loss, that of the grand total
      included, is what was sent less what was received. */
  lemma CellTotals(t: map<nat, Totals>, m: map<(nat, Port), Counters>, h: seq<Record>, gs: seq<nat>, ps: seq<Port>,
                   g: nat, p: Port, f: Field)
    requires TotalsHold(t, h) && CellsHold(m, h) && Lists(h, gs, ps) && DistinctKeys(h)
    requires AGGR_GUID !in gs
    ensures f.RxPkts? || f.TxPkts? ==> TotalGet(TotalsOf(t, g), f) == Total(Row(m, g, ps, f)) % TWO64
    ensures Get(Value(m, AGGR_GUID, p), f) == Total(Column(m, gs, p, f)) % TWO64
    ensures TotalsOf(t, g).pktLoss == Signed(TotalsOf(t, g).txPkts - TotalsOf(t, g).rxPkts)
  {
    hide Sum, Total, SumAll, Splits, Lists, DistinctKeys, Cell, Signed;
    GuidsSplit(h, gs, ps, p);
    PortsSplit(h, gs, ps, g);
    PartsAddUp(h, GuidsOf(gs, p), OfPort(p), f);
    PartsAddUp(h, PortsOf(g, ps), OfGuid(g), f);
    if g != AGGR_GUID {
      forall i | 0 <= i < |ps| ensures Row(m, g, ps, f)[i] == Sum(h, PortsOf(g, ps)[i], f) % TWO64 {
        CellIsSum(h, g, ps[i], f);
      }
    }
    forall i | 0 <= i < |gs| ensures Column(m, gs, p, f)[i] == Sum(h, GuidsOf(gs, p)[i], f) % TWO64 {
      CellIsSum(h, gs[i], p, f);
    }
    RemaindersAddUp(h, GuidsOf(gs, p), Column(m, gs, p, f), f);
    if g == AGGR_GUID {
      if f.RxPkts? || f.TxPkts? { GrandTotal(t, m, h, gs, ps, f); }
      LossWraps(Sum(h, All, TxPkts), Sum(h, All, RxPkts));
    } else {
      RemaindersAddUp(h, PortsOf(g, ps), Row(m, g, ps, f), f);
      LossWraps(Sum(h, OfGuid(g), TxPkts), Sum(h, OfGuid(g), RxPkts));
    }
  }

  /** So the table as it is shown conserves: its rows are the listed guids, its columns the
      listed ports. */
  lemma ShownConserves(model: StreamStatsModel, h: seq<Record>, f: Field)
    requires model.Holds(h) && (f.RxPkts? || f.TxPkts?)
    ensures var (t, m) := (model.aggrGuidStats, model.streamStats);
            var (gs, ps) := (Plain(model.guidList), model.portList);
            && TotalGet(TotalsOf(t, AGGR_GUID), f) == Total(GuidColumn(t, gs, f)) % TWO64
            && TotalGet(TotalsOf(t, AGGR_GUID), f) == Total(Row(m, AGGR_GUID, ps, f)) % TWO64
            && (DistinctKeys(h) ==> forall g :: g in model.guidList ==>
                  && TotalGet(TotalsOf(t, g), f) == Total(Row(m, g, ps, f)) % TWO64
                  && TotalsOf(t, g).pktLoss == Signed(TotalsOf(t, g).txPkts - TotalsOf(t, g).rxPkts))
            && (DistinctKeys(h) ==> forall p :: p in ps ==>
                  Get(Value(m, AGGR_GUID, p), f) == Total(Column(m, gs, p, f)) % TWO64)
  {
    hide CellsHold, TotalsHold, Lists, Signed, Total, TotalsOf, DistinctKeys, Value;
    var (t, m) := (model.aggrGuidStats, model.streamStats);
    var (gs, ps) := (Plain(model.guidList), model.portList);
    GrandTotal(t, m, h, gs, ps, f);
    if DistinctKeys(h) {
      forall g | g in model.guidList
        ensures TotalGet(TotalsOf(t, g), f) == Total(Row(m, g, ps, f)) % TWO64
        ensures TotalsOf(t, g).pktLoss == Signed(TotalsOf(t, g).txPkts - TotalsOf(t, g).rxPkts)
      {
        CellTotals(t, m, h, gs, ps, g, Port(0, 0), f);
      }
      forall p | p in ps ensures Get(Value(m, AGGR_GUID, p), f) == Total(Column(m, gs, p, f)) % TWO64 {
        CellTotals(t, m, h, gs, ps, 0, p, f);
      }
    }
  }

  lemma LossWraps(tx: nat, rx: nat)
    ensures Signed(tx - rx) == Signed(tx % TWO64 - rx % TWO64)
  {
    var (d, e) := (tx - rx, tx % TWO64 - rx % TWO64);
    assert d == e + TWO64 * (tx / TWO64 - rx / TWO64);
    SameRemainder(d, e, tx / TWO64 - rx / TWO64);
  }

  lemma SameRemainder(d: int, e: int, k: int)
    requires d == e + TWO64 * k
    ensures d % TWO64 == e % TWO64
  {
  }
}
