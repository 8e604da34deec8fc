/**
 The streams and device groups a controller keeps for one port, and what each edit makes
 of them.
 */
module PortEdits {
  import opened Options
  import opened Entries
  import opened Agent

  /** The lists of the last synchronisation say what the agent had then; `modified` holds
      the ids of the device groups changed since. */
  datatype PortState = PortState(
    streams: seq<Stream>, lastStreams: seq<nat>,
    groups: seq<Group>, lastGroups: seq<nat>, modified: set<nat>,
    dirty: bool)

  /** The next id to give out; all ports share them. */
  datatype Alloc = Alloc(stream: nat, group: nat)

  const DEFAULT_STREAM := StreamBody(0, false, "")

  // ------- local edits -------

  /** updateStreamOrdinalsFromIndex */
  function Renumbered(s: seq<Stream>): (r: seq<Stream>)
    ensures |r| == |s|
    ensures forall i :: 0 <= i < |s| ==> r[i] == Entry(s[i].id, s[i].value.(ordinal := i))
  {
    seq(|s|, i requires 0 <= i < |s| => Entry(s[i].id, s[i].value.(ordinal := i)))
  }

  function NewStreamAt(p: PortState, id: nat, index: nat, source: Option<StreamBody>): PortState
    requires index <= |p.streams|
  {
    var body := if source.Some? then source.value else DEFAULT_STREAM;
    p.(streams := Renumbered(InsertedAt(p.streams, index, Entry(id, body))), dirty := true)
  }

  function DeleteStreamAt(p: PortState, index: nat): PortState
    requires index < |p.streams|
  {
    p.(streams := Renumbered(Without(p.streams, index)), dirty := true)
  }

  function SetStreamAt(p: PortState, index: nat, enabled: bool, text: string): PortState
    requires index < |p.streams|
  {
    var s := p.streams[index];
    p.(streams := p.streams[index := Entry(s.id, s.value.(enabled := enabled, text := text))], dirty := true)
  }

  function NewGroupAt(p: PortState, id: nat, index: nat, body: GroupBody): PortState
    requires index <= |p.groups|
  {
    p.(groups := InsertedAt(p.groups, index, Entry(id, body)), modified := p.modified + {id}, dirty := true)
  }

  function DeleteGroupAt(p: PortState, index: nat): PortState
    requires index < |p.groups|
  {
    p.(groups := Without(p.groups, index), modified := p.modified - {p.groups[index].id}, dirty := true)
  }

  /** mutableDeviceGroupByIndex, and what is then written through the pointer. */
  function SetGroupAt(p: PortState, index: nat, body: GroupBody): PortState
    requires index < |p.groups|
  {
    var g := p.groups[index];
    p.(groups := p.groups[index := Entry(g.id, body)], modified := p.modified + {g.id}, dirty := true)
  }

  function Decimal(n: nat): string {
    if n < 10 then ["0123456789"[n]] else Decimal(n / 10) + ["0123456789"[n % 10]]
  }

  function CopyName(text: string, n: nat): string { text + " (" + Decimal(n) + ")" }

  // ------- what comes from the agent -------

  function InsertStream(p: PortState, id: nat): PortState {
    p.(streams := p.streams + [Entry(id, DEFAULT_STREAM)])
  }

  function UpdateStream(p: PortState, s: Stream): PortState {
    var k := Find(p.streams, s.id);
    if k < |p.streams| then p.(streams := Sorted(p.streams[k := s])) else p
  }

  function InsertGroup(p: PortState, id: nat, body: GroupBody): PortState {
    if Find(p.groups, id) < |p.groups| then p else p.(groups := p.groups + [Entry(id, body)])
  }

  function UpdateGroup(p: PortState, g: Group): PortState {
    var k := Find(p.groups, g.id);
    if k < |p.groups| then p.(groups := p.groups[k := g]) else p
  }

  function Max(a: nat, b: nat): nat { if a <= b then b else a }

  // ------- synchronisation -------

  function SyncComplete(p: PortState): PortState {
    p.(lastStreams := Ids(p.streams), lastGroups := Ids(p.groups), modified := {}, dirty := false)
  }

  /** The members of a list that are not in a set, in order. */
  function Missing(list: seq<nat>, known: set<nat>): seq<nat> {
    if list == [] then []
    else
      var rest := Missing(list[..|list| - 1], known);
      if list[|list| - 1] in known then rest else rest + [list[|list| - 1]]
  }

  lemma {:induction false} MissingSet(list: seq<nat>, known: set<nat>)
    ensures SetOf(Missing(list, known)) == SetOf(list) - known
  {
    if list != [] {
      MissingSet(list[..|list| - 1], known);
      SetOfSnoc(list);
      var rest := Missing(list[..|list| - 1], known);
      if list[|list| - 1] !in known {
        SetOfSnoc(rest + [list[|list| - 1]]);
        assert (rest + [list[|list| - 1]])[..|rest|] == rest;
      }
    }
  }

  function StreamsDeleted(p: PortState): seq<nat> { Missing(p.lastStreams, IdSet(p.streams)) }

  function StreamsNew(p: PortState): seq<nat> { Missing(Ids(p.streams), SetOf(p.lastStreams)) }

  function GroupsDeleted(p: PortState): seq<nat> { Missing(p.lastGroups, IdSet(p.groups)) }

  function GroupsNew(p: PortState): seq<nat> { Missing(Ids(p.groups), SetOf(p.lastGroups)) }

  /** A list of the modified device groups, in whatever order. */
  predicate ModifiedList(p: PortState, list: seq<Group>) {
    && Distinct(list) && IdSet(list) == p.modified
    && forall i :: 0 <= i < |list| ==> list[i] in p.groups
  }

  lemma IdsSet<T>(s: seq<Entry<T>>)
    ensures SetOf(Ids(s)) == IdSet(s)
  {
    forall i | 0 <= i < |s| ensures s[i].id in SetOf(Ids(s)) && Ids(s)[i] in IdSet(s) { assert Ids(s)[i] == s[i].id; }
  }

  /** The members are tested one by one, and those that are missing stay in order. */
  lemma {:induction false} MissingJoined(a: seq<nat>, b: seq<nat>, known: set<nat>)
    ensures Missing(a + b, known) == Missing(a, known) + Missing(b, known)
    ensures |b| == 1 ==> Missing(b, known) == if b[0] in known then [] else b
  {
    if b == [] {
      assert a + b == a;
    } else {
      var n := |b| - 1;
      assert (a + b)[..|a + b| - 1] == a + b[..n];
      MissingJoined(a, b[..n], known);
    }
  }

  // ------- what an edit leaves where -------

  /** The same stream, but perhaps in another place. */
  predicate Same(s: Stream, t: Stream) { s == Entry(t.id, t.value.(ordinal := s.value.ordinal)) }

  /** The new stream is at the index, with the source's settings; the streams from there on have
      made room for it. */
  lemma StreamAdded(p: PortState, id: nat, index: nat, source: Option<StreamBody>)
    requires index <= |p.streams|
    ensures var q := NewStreamAt(p, id, index, source);
            && q == p.(streams := q.streams, dirty := true)
            && |q.streams| == |p.streams| + 1 && Numbered(q.streams)
            && q.streams[index].id == id
            && q.streams[index].value.enabled == (source.Some? && source.value.enabled)
            && q.streams[index].value.text == (if source.Some? then source.value.text else "")
            && (forall i :: 0 <= i < index ==> Same(q.streams[i], p.streams[i]))
            && (forall i :: index <= i < |p.streams| ==> Same(q.streams[i + 1], p.streams[i]))
  {
  }

  /** The stream at the index is gone, and those behind it have closed up. */
  lemma StreamDeleted(p: PortState, index: nat)
    requires index < |p.streams|
    ensures var q := DeleteStreamAt(p, index);
            && q == p.(streams := q.streams, dirty := true)
            && |q.streams| == |p.streams| - 1 && Numbered(q.streams)
            && (forall i :: 0 <= i < index ==> Same(q.streams[i], p.streams[i]))
            && (forall i :: index < i < |p.streams| ==> Same(q.streams[i - 1], p.streams[i]))
  {
    WithoutAt(p.streams, index);
    hide Without;
    var s := Without(p.streams, index);
    forall i | index < i < |p.streams| ensures Same(Renumbered(s)[i - 1], p.streams[i]) {
      assert s[i - 1] == p.streams[i];
    }
  }

  /** The stream at the index keeps its id and ordinal and has the new settings; no other changes. */
  lemma StreamSet(p: PortState, index: nat, enabled: bool, text: string)
    requires index < |p.streams|
    ensures var q := SetStreamAt(p, index, enabled, text);
            && q == p.(streams := q.streams, dirty := true)
            && |q.streams| == |p.streams|
            && q.streams[index] == Entry(p.streams[index].id, StreamBody(p.streams[index].value.ordinal, enabled, text))
            && (forall i :: 0 <= i < |p.streams| && i != index ==> q.streams[i] == p.streams[i])
  {
  }

  /** The new device group is at the index and counts as modified. */
  lemma GroupAdded(p: PortState, id: nat, index: nat, body: GroupBody)
    requires index <= |p.groups|
    ensures var q := NewGroupAt(p, id, index, body);
            && q == p.(groups := q.groups, modified := p.modified + {id}, dirty := true)
            && |q.groups| == |p.groups| + 1 && q.groups[index] == Entry(id, body)
            && (forall i :: 0 <= i < index ==> q.groups[i] == p.groups[i])
            && (forall i :: index <= i < |p.groups| ==> q.groups[i + 1] == p.groups[i])
  {
  }

  /** The device group at the index is gone and no longer counts as modified. */
  lemma GroupDeleted(p: PortState, index: nat)
    requires index < |p.groups|
    ensures var q := DeleteGroupAt(p, index);
            && q == p.(groups := q.groups, modified := p.modified - {p.groups[index].id}, dirty := true)
            && |q.groups| == |p.groups| - 1
            && (forall i :: 0 <= i < index ==> q.groups[i] == p.groups[i])
            && (forall i :: index < i < |p.groups| ==> q.groups[i - 1] == p.groups[i])
  {
  }

  /** The device group at the index keeps its id, has the new settings and counts as modified. */
  lemma GroupSet(p: PortState, index: nat, body: GroupBody)
    requires index < |p.groups|
    ensures var q := SetGroupAt(p, index, body);
            && q == p.(groups := q.groups, modified := p.modified + {p.groups[index].id}, dirty := true)
            && |q.groups| == |p.groups| && q.groups[index] == Entry(p.groups[index].id, body)
            && (forall i :: 0 <= i < |p.groups| && i != index ==> q.groups[i] == p.groups[i])
  {
  }

  /** What comes from the agent goes to the end, or in place of what has its id; nothing counts as
      changed by it.  Streams are then put in the order of their ordinals. */
  lemma AgentUpdates(p: PortState, s: Stream, g: Group)
    requires Distinct(p.streams) && Distinct(p.groups)
    ensures InsertStream(p, s.id) == p.(streams := p.streams + [Entry(s.id, StreamBody(0, false, ""))])
    ensures var q := UpdateStream(p, s);
            && q == p.(streams := q.streams) && Distinct(q.streams)
            && (s.id !in IdSet(p.streams) ==> q == p)
            && (s.id in IdSet(p.streams) ==>
                  ToMap(q.streams) == ToMap(p.streams)[s.id := s.value] && Ordered(q.streams))
    ensures InsertGroup(p, g.id, g.value) == if g.id in IdSet(p.groups) then p else p.(groups := p.groups + [g])
    ensures var q := UpdateGroup(p, g);
            && q == p.(groups := q.groups) && |q.groups| == |p.groups|
            && forall i :: 0 <= i < |p.groups| ==> q.groups[i] == if p.groups[i].id == g.id then g else p.groups[i]
  {
    var k := Find(p.streams, s.id);
    FindIn(p.streams, s.id);
    FindIn(p.groups, g.id);
    if k < |p.streams| {
      Replaced(p.streams, k, s.value);
      SortedSame(p.streams[k := s]);
      SortedOrdered(p.streams[k := s]);
    }
    hide ToMap, IdSet, Sorted;
  }

  /** After a synchronisation the port is clean and remembers just what it has. */
  lemma Synchronised(p: PortState)
    ensures var q := SyncComplete(p);
            && q == p.(lastStreams := q.lastStreams, lastGroups := q.lastGroups, modified := {}, dirty := false)
            && SetOf(q.lastStreams) == IdSet(p.streams) && SetOf(q.lastGroups) == IdSet(p.groups)
            && StreamsDeleted(q) == StreamsNew(q) == GroupsDeleted(q) == GroupsNew(q) == []
  {
    IdsSet(p.streams);
    IdsSet(p.groups);
    AllKnown(Ids(p.streams), IdSet(p.streams));
    AllKnown(Ids(p.groups), IdSet(p.groups));
  }

  lemma {:induction false} AllKnown(list: seq<nat>, known: set<nat>)
    requires SetOf(list) <= known
    ensures Missing(list, known) == []
  {
    if list != [] {
      SetOfSnoc(list);
      AllKnown(list[..|list| - 1], known);
    }
  }

  // ------- invariants -------

  /** Ids tell streams and groups apart, lie below the allocator, and only device groups that
      exist count as modified. */
  predicate Good(p: PortState, al: Alloc) {
    Distinct(p.streams) && Distinct(p.groups) && Below(p, al) && p.modified <= IdSet(p.groups)
  }

  predicate Below(p: PortState, al: Alloc) {
    && (forall id :: id in IdSet(p.streams) ==> id < al.stream)
    && (forall id :: id in IdSet(p.groups) ==> id < al.group)
  }

  lemma BelowGrows(p: PortState, al: Alloc, later: Alloc)
    requires Below(p, al) && al.stream <= later.stream && al.group <= later.group
    ensures Below(p, later)
  {
  }

  lemma SnocIds<T>(s: seq<Entry<T>>, e: Entry<T>)
    ensures IdSet(s + [e]) <= IdSet(s) + {e.id}
  {
    var r := s + [e];
    forall i | 0 <= i < |r| ensures r[i].id in IdSet(s) + {e.id} {
      if i < |s| { assert r[i] == s[i]; }
    }
  }

  lemma InsertedBelow(p: PortState, al: Alloc, id: nat, body: GroupBody)
    requires Below(p, al)
    ensures Below(InsertStream(p, id), al.(stream := Max(al.stream, id + 1)))
    ensures Below(InsertGroup(p, id, body),
              if Find(p.groups, id) < |p.groups| then al else al.(group := Max(al.group, id + 1)))
  {
    SnocIds(p.streams, Entry(id, DEFAULT_STREAM));
    SnocIds(p.groups, Entry(id, body));
    hide IdSet;
  }

  lemma IdsWithin(s: seq<Stream>, t: seq<Stream>)
    requires forall k :: 0 <= k < |s| ==> s[k].id in IdSet(t)
    ensures IdSet(s) <= IdSet(t)
  {
  }

  lemma {:induction false} SortedFrom(s: seq<Stream>)
    ensures IdSet(Sorted(s)) <= IdSet(s)
  {
    if s != [] {
      var n := |s| - 1;
      var (r, k) := (Sorted(s[..n]), Place(Sorted(s[..n]), s[n]));
      SortedFrom(s[..n]);
      InsertedIndex(r, k, s[n]);
      hide InsertedAt, Place, Sorted;
      forall i | 0 <= i < n ensures s[..n][i].id in IdSet(s) { assert s[..n][i] == s[i]; }
      IdsWithin(s[..n], s);
      var q := InsertedAt(r, k, s[n]);
      forall i | 0 <= i < |q| ensures q[i].id in IdSet(s) {
        if i != k { assert q[i].id in IdSet(r); }
      }
      IdsWithin(q, s);
    }
  }

  lemma UpdatedBelow(p: PortState, al: Alloc, s: Stream, g: Group)
    requires Below(p, al)
    ensures Below(UpdateStream(p, s), al) && Below(UpdateGroup(p, g), al)
  {
    var (k, l) := (Find(p.streams, s.id), Find(p.groups, g.id));
    if k < |p.streams| {
      SortedFrom(p.streams[k := s]);
      SameIds(p.streams, k, s);
    }
    if l < |p.groups| { SameIds(p.groups, l, g); }
  }

  lemma SameIds<T>(s: seq<Entry<T>>, k: nat, e: Entry<T>)
    requires k < |s| && s[k].id == e.id
    ensures IdSet(s[k := e]) <= IdSet(s)
  {
    var r := s[k := e];
    forall i | 0 <= i < |s| ensures r[i].id in IdSet(s) { assert r[i].id == s[i].id; }
  }

  lemma RenumberedIds(s: seq<Stream>)
    requires Distinct(s)
    ensures Distinct(Renumbered(s)) && IdSet(Renumbered(s)) == IdSet(s) && Numbered(Renumbered(s))
  {
    forall i | 0 <= i < |s| ensures s[i].id in IdSet(Renumbered(s)) { assert Renumbered(s)[i].id == s[i].id; }
  }

  // ------- runs -------

  /** `seen` collects every id that was ever on the port. */
  datatype World = World(port: PortState, al: Alloc, seenStreams: set<nat>, seenGroups: set<nat>)

  datatype Edit =
    | AddStream(index: nat, source: Option<StreamBody>)
    | RemoveStream(index: nat)
    | SetStream(index: nat, enabled: bool, text: string)
    | CopyStreams(list: seq<nat>, count: nat)
    | AddGroup(index: nat, body: GroupBody)
    | RemoveGroup(index: nat)
    | SetGroup(index: nat, body: GroupBody)
    | FetchStream(id: nat)
    | FetchGroup(id: nat, body: GroupBody)
    | Elsewhere(streams: nat, groups: nat)

  function AddedStream(w: World, index: nat, source: Option<StreamBody>): World
  {
    if index > |w.port.streams| then w
    else w.(port := NewStreamAt(w.port, w.al.stream, index, source),
            al := w.al.(stream := w.al.stream + 1),
            seenStreams := w.seenStreams + {w.al.stream})
  }

  /** A copy at the end, named by the round. */
  function CopiedOne(w: World, source: StreamBody, round: nat): (r: World)
    ensures r.port.groups == w.port.groups && r.port.modified == w.port.modified && r.al.group == w.al.group
    ensures r.seenGroups == w.seenGroups
    ensures r.port.lastStreams == w.port.lastStreams && r.port.lastGroups == w.port.lastGroups
    ensures |r.port.streams| == |w.port.streams| + 1
  {
    var k := |w.port.streams|;
    var u := AddedStream(w, k, Some(source));
    var s := u.port.streams[k].value;
    u.(port := SetStreamAt(u.port, k, s.enabled, CopyName(s.text, round)))
  }

  /** One round of duplication: a copy of each source at the end. */
  function Copied(w: World, sources: seq<StreamBody>, round: nat): (r: World)
    ensures r.port.groups == w.port.groups && r.port.modified == w.port.modified && r.al.group == w.al.group
    ensures r.seenGroups == w.seenGroups
    ensures r.port.lastStreams == w.port.lastStreams && r.port.lastGroups == w.port.lastGroups
    ensures |r.port.streams| == |w.port.streams| + |sources|
  {
    if sources == [] then w
    else CopiedOne(Copied(w, sources[..|sources| - 1], round), sources[|sources| - 1], round)
  }

  function CopiedTimes(w: World, sources: seq<StreamBody>, count: nat): World {
    if count == 0 then w else Copied(CopiedTimes(w, sources, count - 1), sources, count)
  }

  function Sources(p: PortState, list: seq<nat>): (r: seq<StreamBody>)
    requires forall i :: 0 <= i < |list| ==> list[i] < |p.streams|
    ensures |r| == |list| && forall i :: 0 <= i < |list| ==> r[i] == p.streams[list[i]].value
  {
    seq(|list|, i requires 0 <= i < |list| => p.streams[list[i]].value)
  }

  /** The number a string of digits stands for. */
  function Numeral(s: string): int {
    if s == "" then 0 else Numeral(s[..|s| - 1]) * 10 + (s[|s| - 1] as int - '0' as int)
  }

  /** Decimal writes the number in digits, without leading zeros. */
  lemma {:induction false} DecimalReads(n: nat)
    ensures Decimal(n) != "" && Numeral(Decimal(n)) == n
    ensures forall i :: 0 <= i < |Decimal(n)| ==> '0' <= Decimal(n)[i] <= '9'
    ensures Decimal(n)[0] == '0' ==> n == 0
  {
    var c := "0123456789"[n % 10];
    assert c as int == '0' as int + n % 10;
    if n < 10 {
      assert Decimal(n) == [c] && Numeral([c]) == Numeral([c][..0]) * 10 + n;
    } else {
      DecimalReads(n / 10);
      assert Decimal(n)[..|Decimal(n)| - 1] == Decimal(n / 10);
    }
  }

  /** Stream `t` is a copy of `source` with the id and the number of its round. */
  predicate CopyOf(t: Stream, id: nat, source: StreamBody, round: nat) {
    && t.id == id && t.value.enabled == source.enabled
    && t.value.text == source.text + " (" + Decimal(round) + ")"
  }

  lemma {:induction false} RoundCopied(w: World, sources: seq<StreamBody>, round: nat)
    ensures Copied(w, sources, round).al.stream == w.al.stream + |sources|
    ensures forall i :: 0 <= i < |w.port.streams| ==>
              Same(Copied(w, sources, round).port.streams[i], w.port.streams[i])
    ensures forall j :: 0 <= j < |sources| ==>
              CopyOf(Copied(w, sources, round).port.streams[|w.port.streams| + j], w.al.stream + j, sources[j], round)
  {
    hide CopiedOne, CopyOf, Same;
    if sources == [] {
      forall i | 0 <= i < |w.port.streams| ensures Same(w.port.streams[i], w.port.streams[i]) {
        SameTwice(w.port.streams[i], w.port.streams[i], w.port.streams[i]);
      }
    } else {
      var (n, m) := (|w.port.streams|, |sources| - 1);
      var v := Copied(w, sources[..m], round);
      var r := CopiedOne(v, sources[m], round);
      RoundCopied(w, sources[..m], round);
      OneCopied(v, sources[m], round);
      forall i | 0 <= i < n ensures Same(r.port.streams[i], w.port.streams[i]) {
        SameTwice(r.port.streams[i], v.port.streams[i], w.port.streams[i]);
      }
      forall j | 0 <= j < m ensures CopyOf(r.port.streams[n + j], w.al.stream + j, sources[j], round) {
        StillCopy(v.port.streams[n + j], r.port.streams[n + j], w.al.stream + j, sources[..m][j], round);
      }
    }
  }

  lemma OneCopied(w: World, source: StreamBody, round: nat)
    ensures var (r, n) := (CopiedOne(w, source, round), |w.port.streams|);
            && r.al.stream == w.al.stream + 1 && CopyOf(r.port.streams[n], w.al.stream, source, round)
            && forall i :: 0 <= i < n ==> Same(r.port.streams[i], w.port.streams[i])
  {
    hide Decimal;
  }

  lemma SameTwice(r: Stream, s: Stream, t: Stream)
    ensures Same(r, r) && (Same(r, s) && Same(s, t) ==> Same(r, t))
  {
  }

  /** The place of copy `j` of a round. */
  function PlaceIn(n: nat, sources: nat, round: nat, j: nat): nat { n + round * sources + j }

  /** The old streams are followed by `count` rounds of copies, with ids from `id` on. */
  predicate Rounds(was: seq<Stream>, s: seq<Stream>, id: nat, sources: seq<StreamBody>, count: nat) {
    && |s| == PlaceIn(|was|, |sources|, count, 0)
    && (forall i :: 0 <= i < |was| ==> i < |s| && Same(s[i], was[i]))
    && forall round, j :: 0 <= round < count && 0 <= j < |sources| ==>
         && PlaceIn(|was|, |sources|, round, j) < |s|
         && CopyOf(s[PlaceIn(|was|, |sources|, round, j)], PlaceIn(id, |sources|, round, j), sources[j], round + 1)
  }

  lemma OneMoreRound(was: seq<Stream>, s: seq<Stream>, t: seq<Stream>, id: nat, sources: seq<StreamBody>, count: nat)
    requires Rounds(was, s, id, sources, count) && |t| == |s| + |sources|
    requires forall i :: 0 <= i < |s| ==> Same(t[i], s[i])
    requires forall j :: 0 <= j < |sources| ==>
               CopyOf(t[|s| + j], PlaceIn(id, |sources|, count, 0) + j, sources[j], count + 1)
    ensures Rounds(was, t, id, sources, count + 1)
  {
    hide CopyOf, PlaceIn;
    var (n, m) := (|was|, |sources|);
    RoundEnds(n, m, count);
    forall round, j | 0 <= round < count + 1 && 0 <= j < m
      ensures PlaceIn(n, m, round, j) < |t|
      ensures CopyOf(t[PlaceIn(n, m, round, j)], PlaceIn(id, m, round, j), sources[j], round + 1)
    {
      if round < count {
        StillCopy(s[PlaceIn(n, m, round, j)], t[PlaceIn(n, m, round, j)], PlaceIn(id, m, round, j), sources[j],
                  round + 1);
      } else {
        InRound(n, m, round, j);
        InRound(id, m, round, j);
      }
    }
  }

  lemma RoundEnds(n: nat, m: nat, count: nat)
    ensures PlaceIn(n, m, count + 1, 0) == PlaceIn(n, m, count, 0) + m
  {
  }

  lemma InRound(n: nat, m: nat, round: nat, j: nat)
    ensures PlaceIn(n, m, round, j) == PlaceIn(n, m, round, 0) + j
  {
  }

  lemma StillCopy(s: Stream, t: Stream, id: nat, source: StreamBody, round: nat)
    requires CopyOf(s, id, source, round) && Same(t, s)
    ensures CopyOf(t, id, source, round)
  {
  }

  /** Duplication puts the copies at the end, round by round, each with a new id, its source's
      settings and the number of the round after its source's name; the streams before them are
      the old ones. */
  lemma {:induction false} TimesCopied(w: World, sources: seq<StreamBody>, count: nat)
    ensures Rounds(w.port.streams, CopiedTimes(w, sources, count).port.streams, w.al.stream, sources, count)
    ensures CopiedTimes(w, sources, count).al.stream == PlaceIn(w.al.stream, |sources|, count, 0)
  {
    hide Copied, CopyOf, Same;
    if count == 0 {
      NoRounds(w.port.streams, w.al.stream, sources);
    } else {
      hide PlaceIn, Rounds;
      var v := CopiedTimes(w, sources, count - 1);
      TimesCopied(w, sources, count - 1);
      RoundCopied(v, sources, count);
      RoundEnds(w.al.stream, |sources|, count - 1);
      OneMoreRound(w.port.streams, v.port.streams, Copied(v, sources, count).port.streams, w.al.stream, sources,
                   count - 1);
    }
  }

  lemma NoRounds(s: seq<Stream>, id: nat, sources: seq<StreamBody>)
    ensures Rounds(s, s, id, sources, 0) && PlaceIn(id, |sources|, 0, 0) == id
  {
  }

  /** What duplicating streams of the port leaves. */
  lemma StreamsCopied(w: World, list: seq<nat>, count: nat, sources: seq<StreamBody>)
    requires Allowed(w, CopyStreams(list, count))
    requires |sources| == |list| && forall i :: 0 <= i < |list| ==> sources[i] == w.port.streams[list[i]].value
    ensures var r := Edited(w, CopyStreams(list, count));
            && r.port == w.port.(streams := r.port.streams, dirty := true)
            && Rounds(w.port.streams, r.port.streams, w.al.stream, sources, count)
            && r.al == w.al.(stream := w.al.stream + count * |list|)
  {
    hide Rounds;
    assert sources == Sources(w.port, list);
    TimesCopied(w, sources, count);
    TimesKeeps(w, sources, count);
  }

  lemma {:induction false} TimesKeeps(w: World, sources: seq<StreamBody>, count: nat)
    ensures var r := CopiedTimes(w, sources, count);
            && r.port == w.port.(streams := r.port.streams, dirty := r.port.dirty) && r.al.group == w.al.group
  {
    if count > 0 { TimesKeeps(w, sources, count - 1); }
  }

  /** What the callers guarantee: copies are made of streams that exist, and the agent does
      not name a stream twice. */
  predicate Allowed(w: World, e: Edit) {
    match e
    case CopyStreams(list, _) => forall i :: 0 <= i < |list| ==> list[i] < |w.port.streams|
    case FetchStream(id) => id !in IdSet(w.port.streams)
    case _ => true
  }

  function Edited(w: World, e: Edit): World
    requires Allowed(w, e)
  {
    var p := w.port;
    match e
    case AddStream(index, source) => AddedStream(w, index, source)
    case RemoveStream(index) => if index >= |p.streams| then w else w.(port := DeleteStreamAt(p, index))
    case SetStream(index, enabled, text) =>
      if index >= |p.streams| then w else w.(port := SetStreamAt(p, index, enabled, text))
    case CopyStreams(list, count) =>
      var r := CopiedTimes(w, Sources(p, list), count);
      r.(port := r.port.(dirty := true))
    case AddGroup(index, body) =>
      if index > |p.groups| then w
      else w.(port := NewGroupAt(p, w.al.group, index, body), al := w.al.(group := w.al.group + 1),
              seenGroups := w.seenGroups + {w.al.group})
    case RemoveGroup(index) => if index >= |p.groups| then w else w.(port := DeleteGroupAt(p, index))
    case SetGroup(index, body) => if index >= |p.groups| then w else w.(port := SetGroupAt(p, index, body))
    case FetchStream(id) =>
      w.(port := InsertStream(p, id), al := w.al.(stream := Max(w.al.stream, id + 1)),
         seenStreams := w.seenStreams + {id})
    case FetchGroup(id, body) =>
      if Find(p.groups, id) < |p.groups| then w
      else w.(port := InsertGroup(p, id, body), al := w.al.(group := Max(w.al.group, id + 1)),
              seenGroups := w.seenGroups + {id})
    case Elsewhere(m, n) => w.(al := Alloc(w.al.stream + m, w.al.group + n))
  }

  predicate AllowedRun(w: World, es: seq<Edit>)
    decreases |es|
  {
    es == [] || (Allowed(w, es[0]) && AllowedRun(Edited(w, es[0]), es[1..]))
  }

  function RunOf(w: World, es: seq<Edit>): World
    requires AllowedRun(w, es)
    decreases |es|
  {
    if es == [] then w else RunOf(Edited(w, es[0]), es[1..])
  }

  /** `Good`, and every id ever on the port is below the allocator. */
  predicate Sound(w: World) {
    && Good(w.port, w.al)
    && IdSet(w.port.streams) <= w.seenStreams && IdSet(w.port.groups) <= w.seenGroups
    && (forall id :: id in w.seenStreams ==> id < w.al.stream)
    && (forall id :: id in w.seenGroups ==> id < w.al.group)
  }

  lemma AddedStreamSound(w: World, index: nat, source: Option<StreamBody>)
    requires Sound(w)
    ensures Sound(AddedStream(w, index, source))
  {
    if index <= |w.port.streams| {
      var body := if source.Some? then source.value else DEFAULT_STREAM;
      InsertedIds(w.port.streams, index, Entry(w.al.stream, body));
      RenumberedIds(InsertedAt(w.port.streams, index, Entry(w.al.stream, body)));
    }
  }

  lemma SetStreamIds(s: seq<Stream>, k: nat, enabled: bool, text: string)
    requires Distinct(s) && k < |s|
    ensures var r := s[k := Entry(s[k].id, s[k].value.(enabled := enabled, text := text))];
            Distinct(r) && IdSet(r) == IdSet(s)
  {
    Replaced(s, k, s[k].value.(enabled := enabled, text := text));
  }

  lemma CopiedOneSound(w: World, source: StreamBody, round: nat)
    requires Sound(w)
    ensures Sound(CopiedOne(w, source, round))
  {
    hide Decimal;
    var k := |w.port.streams|;
    AddedStreamSound(w, k, Some(source));
    var u := AddedStream(w, k, Some(source));
    var s := u.port.streams[k].value;
    SetStreamIds(u.port.streams, k, s.enabled, CopyName(s.text, round));
  }

  lemma {:induction false} CopiedSound(w: World, sources: seq<StreamBody>, round: nat)
    requires Sound(w)
    ensures Sound(Copied(w, sources, round))
  {
    hide CopiedOne, Sound;
    if sources != [] {
      CopiedSound(w, sources[..|sources| - 1], round);
      CopiedOneSound(Copied(w, sources[..|sources| - 1], round), sources[|sources| - 1], round);
    }
  }

  lemma {:induction false} CopiedTimesSound(w: World, sources: seq<StreamBody>, count: nat)
    requires Sound(w)
    ensures Sound(CopiedTimes(w, sources, count))
  {
    if count > 0 {
      CopiedTimesSound(w, sources, count - 1);
      CopiedSound(CopiedTimes(w, sources, count - 1), sources, count);
    }
  }

  lemma StreamEditSound(w: World, e: Edit)
    requires Sound(w) && Allowed(w, e)
    requires e.AddStream? || e.RemoveStream? || e.SetStream? || e.CopyStreams? || e.FetchStream?
    ensures Sound(Edited(w, e))
  {
    var p := w.port;
    match e
    case AddStream(index, source) => AddedStreamSound(w, index, source);
    case RemoveStream(index) =>
      if index < |p.streams| {
        Removed(p.streams, index);
        RenumberedIds(Without(p.streams, index));
      }
    case SetStream(index, enabled, text) => if index < |p.streams| { SetStreamIds(p.streams, index, enabled, text); }
    case CopyStreams(list, count) => CopiedTimesSound(w, Sources(p, list), count);
    case FetchStream(id) => Appended(p.streams, Entry(id, DEFAULT_STREAM));
  }

  /** Device groups that come from the old ones and one new id, all in order. */
  lemma GroupsSound(w: World, p: PortState, al: Alloc, seen: set<nat>)
    requires Sound(w) && p == w.port.(groups := p.groups, modified := p.modified, dirty := p.dirty)
    requires Distinct(p.groups) && p.modified <= IdSet(p.groups) && IdSet(p.groups) <= seen
    requires al.stream == w.al.stream && forall id :: id in seen ==> id < al.group
    ensures Sound(w.(port := p, al := al, seenGroups := seen))
  {
    hide IdSet, Distinct;
  }

  lemma GroupEditSound(w: World, e: Edit)
    requires Sound(w) && Allowed(w, e)
    requires e.AddGroup? || e.RemoveGroup? || e.SetGroup? || e.FetchGroup? || e.Elsewhere?
    ensures Sound(Edited(w, e))
  {
    hide IdSet, Distinct, ToMap, InsertedAt, Without;
    var p := w.port;
    var r := Edited(w, e);
    match e
    case AddGroup(index, body) =>
      if index <= |p.groups| {
        InsertedIds(p.groups, index, Entry(w.al.group, body));
        GroupsSound(w, r.port, r.al, r.seenGroups);
      }
    case RemoveGroup(index) =>
      if index < |p.groups| {
        Removed(p.groups, index);
        GroupsSound(w, r.port, r.al, r.seenGroups);
      }
    case SetGroup(index, body) =>
      if index < |p.groups| {
        Replaced(p.groups, index, body);
        MemberId(p.groups, index);
        GroupsSound(w, r.port, r.al, r.seenGroups);
      }
    case FetchGroup(id, body) =>
      FindIn(p.groups, id);
      if id !in IdSet(p.groups) {
        Appended(p.groups, Entry(id, body));
        GroupsSound(w, r.port, r.al, r.seenGroups);
      }
    case Elsewhere(m, n) =>
  }

  lemma MemberId<T>(s: seq<Entry<T>>, k: nat)
    requires k < |s|
    ensures s[k].id in IdSet(s)
  {
  }

  lemma EditSound(w: World, e: Edit)
    requires Sound(w) && Allowed(w, e)
    ensures Sound(Edited(w, e))
    ensures w.seenStreams <= Edited(w, e).seenStreams && w.seenGroups <= Edited(w, e).seenGroups
  {
    hide Sound;
    if e.AddStream? || e.RemoveStream? || e.SetStream? || e.CopyStreams? || e.FetchStream? {
      StreamEditSound(w, e);
    } else {
      GroupEditSound(w, e);
    }
    if e.CopyStreams? { CopiedSeen(w, Sources(w.port, e.list), e.count); }
  }

  lemma {:induction false} CopiedSeen(w: World, sources: seq<StreamBody>, count: nat)
    ensures w.seenStreams <= CopiedTimes(w, sources, count).seenStreams
    ensures w.seenGroups <= CopiedTimes(w, sources, count).seenGroups
  {
    if count > 0 {
      CopiedSeen(w, sources, count - 1);
      RoundSeen(CopiedTimes(w, sources, count - 1), sources, count);
    }
  }

  lemma {:induction false} RoundSeen(w: World, sources: seq<StreamBody>, round: nat)
    ensures w.seenStreams <= Copied(w, sources, round).seenStreams
  {
    if sources != [] { RoundSeen(w, sources[..|sources| - 1], round); }
  }

  /** Over every run: ids stay distinct and below the allocator, `modified` names live groups
      only, and no id ever on the port is forgotten. */
  lemma {:induction false} RunSound(w: World, es: seq<Edit>)
    requires Sound(w) && AllowedRun(w, es)
    ensures Sound(RunOf(w, es))
    ensures w.seenStreams <= RunOf(w, es).seenStreams && w.seenGroups <= RunOf(w, es).seenGroups
    decreases |es|
  {
    hide Sound, Edited, Allowed;
    if es != [] {
      EditSound(w, es[0]);
      RunSound(Edited(w, es[0]), es[1..]);
    }
  }

  /** An id given out after a run was never on the port before, deleted or not. */
  lemma NewIdsAreNew(w: World, es: seq<Edit>, id: nat)
    requires Sound(w) && AllowedRun(w, es)
    ensures id in w.seenStreams || id in RunOf(w, es).seenStreams ==> id != RunOf(w, es).al.stream
    ensures id in w.seenGroups || id in RunOf(w, es).seenGroups ==> id != RunOf(w, es).al.group
  {
    RunSound(w, es);
  }

  // ------- ordinals -------

  lemma AddedStreamNumbered(w: World, index: nat, source: Option<StreamBody>)
    requires index <= |w.port.streams|
    ensures Numbered(AddedStream(w, index, source).port.streams)
    ensures |AddedStream(w, index, source).port.streams| == |w.port.streams| + 1
  {
  }

  lemma SetStreamNumbered(p: PortState, index: nat, enabled: bool, text: string)
    requires index < |p.streams| && Numbered(p.streams)
    ensures Numbered(SetStreamAt(p, index, enabled, text).streams)
  {
  }

  lemma {:induction false} CopiedNumbered(w: World, sources: seq<StreamBody>, round: nat)
    ensures Numbered(w.port.streams) || sources != [] ==> Numbered(Copied(w, sources, round).port.streams)
  {
    hide AddedStream, SetStreamAt, Numbered, CopyName;
    if sources != [] {
      var v := Copied(w, sources[..|sources| - 1], round);
      var k := |v.port.streams|;
      AddedStreamNumbered(v, k, Some(sources[|sources| - 1]));
      var u := AddedStream(v, k, Some(sources[|sources| - 1]));
      var s := u.port.streams[k].value;
      SetStreamNumbered(u.port, k, s.enabled, CopyName(s.text, round));
    }
  }

  lemma {:induction false} CopiedTimesNumbered(w: World, sources: seq<StreamBody>, count: nat)
    ensures Numbered(w.port.streams) || (sources != [] && count > 0)
        ==> Numbered(CopiedTimes(w, sources, count).port.streams)
  {
    hide Numbered;
    if count > 0 {
      CopiedTimesNumbered(w, sources, count - 1);
      CopiedNumbered(CopiedTimes(w, sources, count - 1), sources, count);
    }
  }

  predicate Renumbers(w: World, e: Edit) {
    match e
    case AddStream(index, _) => index <= |w.port.streams|
    case RemoveStream(index) => index < |w.port.streams|
    case CopyStreams(list, count) => list != [] && count > 0
    case _ => false
  }

  /** A local add, delete or copy leaves every ordinal equal to its index, and no other local
      edit disturbs that. */
  lemma EditNumbers(w: World, e: Edit)
    requires Allowed(w, e) && !e.FetchStream?
    requires Renumbers(w, e) || Numbered(w.port.streams)
    ensures Numbered(Edited(w, e).port.streams)
  {
    if e.CopyStreams? { CopiedTimesNumbered(w, Sources(w.port, e.list), e.count); }
  }

  lemma {:induction false} RunNumbers(w: World, es: seq<Edit>)
    requires AllowedRun(w, es) && forall i :: 0 <= i < |es| ==> !es[i].FetchStream?
    requires Numbered(w.port.streams)
    ensures Numbered(RunOf(w, es).port.streams)
    decreases |es|
  {
    hide Numbered, Edited, Allowed;
    if es != [] {
      EditNumbers(w, es[0]);
      RunNumbers(Edited(w, es[0]), es[1..]);
    }
  }
}
