/**
 What the agent keeps for one port, and what the requests of a controller do to it.
 */
module Agent {
  import opened Options
  import opened Entries

  datatype StreamBody = StreamBody(ordinal: nat, enabled: bool, text: string)

  type Stream = Entry<StreamBody>

  /** The steps are the parts of a device group that the agent may change. */
  datatype GroupBody = GroupBody(macStep: nat, ip6Step: Option<Option<nat>>, text: string)

  type Group = Entry<GroupBody>

  /** `newStream` and `newGroup` are what a fresh stream or group holds until it is modified;
      `sequential` is the transmit mode. */
  datatype Agent = Agent(streams: seq<Stream>, groups: map<nat, GroupBody>,
                         newStream: StreamBody, newGroup: GroupBody, sequential: bool)

  /** The same but for streams and device groups. */
  predicate SameSettings(a: Agent, b: Agent) { b == a.(streams := b.streams, groups := b.groups) }

  // ------- streams -------

  function AddStreams(a: Agent, ids: seq<nat>): (r: Agent)
    ensures SameSettings(a, r)
  {
    if ids == [] then a
    else
      var b := AddStreams(a, ids[..|ids| - 1]);
      var id := ids[|ids| - 1];
      if Find(b.streams, id) < |b.streams| then b
      else b.(streams := b.streams + [Entry(id, b.newStream)])
  }

  function DeleteStreams(a: Agent, ids: seq<nat>): (r: Agent)
    ensures SameSettings(a, r)
  {
    if ids == [] then a
    else
      var b := DeleteStreams(a, ids[..|ids| - 1]);
      var k := Find(b.streams, ids[|ids| - 1]);
      if k < |b.streams| then b.(streams := Without(b.streams, k)) else b
  }

  function ModifyStreams(a: Agent, list: seq<Stream>): (r: Agent)
    ensures SameSettings(a, r)
  {
    if list == [] then a
    else
      var b := ModifyStreams(a, list[..|list| - 1]);
      var s := list[|list| - 1];
      var k := Find(b.streams, s.id);
      if k < |b.streams| then b.(streams := b.streams[k := s]) else b
  }

  function SetOf(ids: seq<nat>): set<nat> { set i | 0 <= i < |ids| :: ids[i] }

  lemma SetOfNone(ids: seq<nat>)
    requires ids == []
    ensures SetOf(ids) == {}
  {
  }

  lemma SetOfSnoc(ids: seq<nat>)
    requires ids != []
    ensures SetOf(ids) == SetOf(ids[..|ids| - 1]) + {ids[|ids| - 1]}
  {
    forall x | x in SetOf(ids) ensures x in SetOf(ids[..|ids| - 1]) + {ids[|ids| - 1]} {
      var i :| 0 <= i < |ids| && ids[i] == x;
      if i < |ids| - 1 { assert ids[..|ids| - 1][i] == x; }
    }
    forall x | x in SetOf(ids[..|ids| - 1]) ensures x in SetOf(ids) {
      var i :| 0 <= i < |ids| - 1 && ids[..|ids| - 1][i] == x;
      assert ids[i] == x;
    }
  }

  /** Streams that were there stay, and the ids that were not get a fresh stream each. */
  lemma {:induction false} AddedStreams(a: Agent, ids: seq<nat>)
    requires Distinct(a.streams)
    ensures Distinct(AddStreams(a, ids).streams)
    ensures IdSet(AddStreams(a, ids).streams) == IdSet(a.streams) + SetOf(ids)
    ensures ToMap(AddStreams(a, ids).streams)
         == (map id | id in SetOf(ids) :: a.newStream) + ToMap(a.streams)
    ensures AddStreams(a, ids).groups == a.groups
  {
    hide ToMap, IdSet, Distinct, SetOf;
    if ids == [] {
      SetOfNone(ids);
      assert (map id | id in SetOf(ids) :: a.newStream) + ToMap(a.streams) == ToMap(a.streams);
    } else {
      var (init, id) := (ids[..|ids| - 1], ids[|ids| - 1]);
      var b := AddStreams(a, init);
      AddedStreams(a, init);
      SetOfSnoc(ids);
      MapKeys(a.streams);
      MapKeys(b.streams);
      FindIn(b.streams, id);
      if id !in IdSet(b.streams) { Appended(b.streams, Entry(id, a.newStream)); }
      FreshIds(SetOf(init), id, a.newStream, ToMap(a.streams));
    }
  }

  lemma FreshIds<T>(s: set<nat>, id: nat, x: T, m: map<nat, T>)
    ensures var (before, after) := ((map i | i in s :: x) + m, (map i | i in s + {id} :: x) + m);
            if id in s || id in m then after == before else after == before[id := x]
  {
  }

  /** The streams that are named go, the others stay as they were. */
  lemma {:induction false} DeletedStreams(a: Agent, ids: seq<nat>)
    requires Distinct(a.streams)
    ensures Distinct(DeleteStreams(a, ids).streams)
    ensures IdSet(DeleteStreams(a, ids).streams) == IdSet(a.streams) - SetOf(ids)
    ensures ToMap(DeleteStreams(a, ids).streams) == ToMap(a.streams) - SetOf(ids)
    ensures DeleteStreams(a, ids).groups == a.groups
  {
    hide ToMap, IdSet, Distinct, SetOf;
    if ids == [] {
      SetOfNone(ids);
      assert ToMap(a.streams) - {} == ToMap(a.streams);
    } else {
      var (init, id) := (ids[..|ids| - 1], ids[|ids| - 1]);
      var b := DeleteStreams(a, init);
      DeletedStreams(a, init);
      SetOfSnoc(ids);
      FindIn(b.streams, id);
      MapKeys(b.streams);
      TakenTwice(ToMap(a.streams), SetOf(init), id);
      if id in IdSet(b.streams) { Removed(b.streams, Find(b.streams, id)); }
    }
  }

  lemma TakenTwice<T>(m: map<nat, T>, s: set<nat>, id: nat)
    ensures m - (s + {id}) == m - s - {id}
    ensures id !in m - s ==> m - (s + {id}) == m - s
  {
  }

  lemma SnocMap<T>(list: seq<Entry<T>>)
    requires Distinct(list) && list != []
    ensures var n := |list| - 1;
            && Distinct(list[..n]) && list[n].id !in IdSet(list[..n])
            && ToMap(list) == ToMap(list[..n])[list[n].id := list[n].value]
            && IdSet(list) == IdSet(list[..n]) + {list[n].id}
  {
    var n := |list| - 1;
    assert list[..n] + [list[n]] == list;
    Appended(list[..n], list[n]);
  }

  /** Modifying streams that all exist writes their values over the map. */
  lemma {:induction false} ModifiedStreams(a: Agent, list: seq<Stream>)
    requires Distinct(a.streams) && Distinct(list) && IdSet(list) <= IdSet(a.streams)
    ensures Distinct(ModifyStreams(a, list).streams)
    ensures IdSet(ModifyStreams(a, list).streams) == IdSet(a.streams)
    ensures ToMap(ModifyStreams(a, list).streams) == ToMap(a.streams) + ToMap(list)
    ensures ModifyStreams(a, list).groups == a.groups
  {
    if list == [] {
      assert ToMap(list) == map[];
    } else {
      var n := |list| - 1;
      var b := ModifyStreams(a, list[..n]);
      SnocMap(list);
      hide ToMap, IdSet, Distinct;
      ModifiedStreams(a, list[..n]);
      FindIn(b.streams, list[n].id);
      Replaced(b.streams, Find(b.streams, list[n].id), list[n].value);
      Overwritten(ToMap(a.streams), ToMap(list[..n]), list[n].id, list[n].value);
    }
  }

  lemma Overwritten<T>(m: map<nat, T>, n: map<nat, T>, id: nat, x: T)
    ensures (m + n)[id := x] == m + n[id := x]
  {
  }

  /** The streams of the agent keep their places: new ones go to the end. */
  lemma {:induction false} PlacesKept(a: Agent, ids: seq<nat>, list: seq<Stream>)
    ensures a.streams <= AddStreams(a, ids).streams
    ensures Ids(ModifyStreams(a, list).streams) == Ids(a.streams)
    decreases |ids| + |list|
  {
    if ids != [] { PlacesKept(a, ids[..|ids| - 1], []); }
    if list != [] { PlacesKept(a, [], list[..|list| - 1]); }
  }

  // ------- device groups -------

  /** What modifyDeviceGroup stores: a zero MAC step becomes one, and so does a missing step
      of an IPv6 configuration. */
  function Norm(g: GroupBody): GroupBody {
    GroupBody(if g.macStep == 0 then 1 else g.macStep,
              if g.ip6Step == Some(None) then Some(Some(1)) else g.ip6Step,
              g.text)
  }

  /** The steps that modifyDeviceGroup leaves alone. */
  predicate KeepsSteps(g: GroupBody) { g.macStep != 0 && g.ip6Step != Some(None) }

  lemma NormIff(g: GroupBody)
    ensures Norm(g) == g <==> KeepsSteps(g)
    ensures KeepsSteps(Norm(g))
  {
  }

  predicate Settled(m: map<nat, GroupBody>) { forall id :: id in m ==> KeepsSteps(m[id]) }

  function AddGroups(a: Agent, ids: seq<nat>): (r: Agent)
    ensures SameSettings(a, r)
  {
    if ids == [] then a
    else
      var b := AddGroups(a, ids[..|ids| - 1]);
      var id := ids[|ids| - 1];
      if id in b.groups then b else b.(groups := b.groups[id := b.newGroup])
  }

  function DeleteGroups(a: Agent, ids: seq<nat>): (r: Agent)
    ensures SameSettings(a, r)
  {
    if ids == [] then a
    else
      var b := DeleteGroups(a, ids[..|ids| - 1]);
      b.(groups := b.groups - {ids[|ids| - 1]})
  }

  function ModifyGroups(a: Agent, list: seq<Group>): (r: Agent)
    ensures SameSettings(a, r)
  {
    if list == [] then a
    else
      var b := ModifyGroups(a, list[..|list| - 1]);
      var g := list[|list| - 1];
      if g.id in b.groups then b.(groups := b.groups[g.id := Norm(g.value)]) else b
  }

  function NormAll(m: map<nat, GroupBody>): map<nat, GroupBody> { map id | id in m :: Norm(m[id]) }

  lemma {:induction false} AddedGroups(a: Agent, ids: seq<nat>)
    ensures AddGroups(a, ids).groups.Keys == a.groups.Keys + SetOf(ids)
    ensures forall id :: id in AddGroups(a, ids).groups ==>
              AddGroups(a, ids).groups[id] == if id in a.groups then a.groups[id] else a.newGroup
    ensures AddGroups(a, ids).streams == a.streams
  {
    if ids != [] {
      AddedGroups(a, ids[..|ids| - 1]);
      SetOfSnoc(ids);
    }
  }

  lemma {:induction false} DeletedGroups(a: Agent, ids: seq<nat>)
    ensures DeleteGroups(a, ids).groups == a.groups - SetOf(ids)
    ensures DeleteGroups(a, ids).streams == a.streams
  {
    if ids != [] {
      DeletedGroups(a, ids[..|ids| - 1]);
      SetOfSnoc(ids);
    }
  }

  lemma NormUpdate(m: map<nat, GroupBody>, id: nat, x: GroupBody)
    ensures NormAll(m[id := x]) == NormAll(m)[id := Norm(x)]
  {
    hide Norm;
  }

  lemma {:induction false} ModifiedGroups(a: Agent, list: seq<Group>)
    requires Distinct(list) && IdSet(list) <= a.groups.Keys
    ensures ModifyGroups(a, list).groups == a.groups + NormAll(ToMap(list))
    ensures ModifyGroups(a, list).streams == a.streams
  {
    if list == [] {
      assert ToMap(list) == map[];
    } else {
      var n := |list| - 1;
      var b := ModifyGroups(a, list[..n]);
      SnocMap(list);
      hide ToMap, Distinct, Norm, NormAll, IdSet;
      ModifiedGroups(a, list[..n]);
      NormUpdate(ToMap(list[..n]), list[n].id, list[n].value);
      assert list[n].id in b.groups;
      Overwritten(a.groups, NormAll(ToMap(list[..n])), list[n].id, Norm(list[n].value));
    }
  }

  /** Modifying takes the new values for what is there and leaves unknown ids out. */
  function Over<T>(m: map<nat, T>, n: map<nat, T>): map<nat, T> {
    map id | id in m :: if id in n then n[id] else m[id]
  }

  lemma OverUpdate<T>(m: map<nat, T>, n: map<nat, T>, id: nat, x: T)
    ensures Over(m, n[id := x]) == if id in m then Over(m, n)[id := x] else Over(m, n)
  {
  }

  lemma {:induction false} KnownStreamsModified(a: Agent, list: seq<Stream>)
    requires Distinct(a.streams) && Distinct(list)
    ensures Distinct(ModifyStreams(a, list).streams)
    ensures ToMap(ModifyStreams(a, list).streams) == Over(ToMap(a.streams), ToMap(list))
  {
    if list == [] {
      assert ToMap(list) == map[];
      assert Over(ToMap(a.streams), map[]) == ToMap(a.streams);
    } else {
      var n := |list| - 1;
      var b := ModifyStreams(a, list[..n]);
      SnocMap(list);
      hide ToMap, IdSet, Distinct;
      KnownStreamsModified(a, list[..n]);
      FindIn(b.streams, list[n].id);
      MapKeys(b.streams);
      OverUpdate(ToMap(a.streams), ToMap(list[..n]), list[n].id, list[n].value);
      if list[n].id in IdSet(b.streams) {
        Replaced(b.streams, Find(b.streams, list[n].id), list[n].value);
      }
    }
  }

  lemma {:induction false} KnownGroupsModified(a: Agent, list: seq<Group>)
    requires Distinct(list)
    ensures ModifyGroups(a, list).groups == Over(a.groups, NormAll(ToMap(list)))
  {
    if list == [] {
      assert ToMap(list) == map[] && NormAll(map[]) == map[];
      assert Over(a.groups, map[]) == a.groups;
    } else {
      var n := |list| - 1;
      SnocMap(list);
      hide ToMap, Distinct, Norm, NormAll, IdSet;
      KnownGroupsModified(a, list[..n]);
      NormUpdate(ToMap(list[..n]), list[n].id, list[n].value);
      OverUpdate(a.groups, NormAll(ToMap(list[..n])), list[n].id, Norm(list[n].value));
    }
  }

  /** What is stored of a device group: a step of one where the MAC step is zero or an IPv6
      configuration has none, and everything else as it was sent. */
  lemma GroupStored(a: Agent, list: seq<Group>, i: nat)
    requires Distinct(list) && i < |list| && list[i].id in a.groups
    ensures list[i].id in ModifyGroups(a, list).groups
    ensures var (g, sent) := (ModifyGroups(a, list).groups[list[i].id], list[i].value);
            && g.macStep == (if sent.macStep == 0 then 1 else sent.macStep)
            && g.ip6Step == (if sent.ip6Step == Some(None) then Some(Some(1)) else sent.ip6Step)
            && g.text == sent.text
  {
    hide ModifyGroups, ToMap, Distinct;
    KnownGroupsModified(a, list);
    MapAt(list, i);
  }

  // ------- what every request keeps -------

  /** No group of the agent would be changed by storing it again, and no fresh group either. */
  predicate Steady(a: Agent) { KeepsSteps(a.newGroup) && Settled(a.groups) }

  lemma {:induction false} StreamsSteady(a: Agent, ids: seq<nat>, list: seq<Stream>)
    requires Steady(a)
    ensures Steady(AddStreams(a, ids)) && Steady(DeleteStreams(a, ids)) && Steady(ModifyStreams(a, list))
    decreases |ids| + |list|
  {
    if ids != [] { StreamsSteady(a, ids[..|ids| - 1], []); }
    if list != [] { StreamsSteady(a, [], list[..|list| - 1]); }
  }

  lemma {:induction false} GroupsSteady(a: Agent, ids: seq<nat>, list: seq<Group>)
    requires Steady(a)
    ensures Steady(AddGroups(a, ids)) && Steady(DeleteGroups(a, ids)) && Steady(ModifyGroups(a, list))
    decreases |ids| + |list|
  {
    hide KeepsSteps, Norm;
    if ids != [] { GroupsSteady(a, ids[..|ids| - 1], []); }
    if list != [] {
      GroupsSteady(a, [], list[..|list| - 1]);
      NormIff(list[|list| - 1].value);
    }
  }

  lemma SettledIff(m: map<nat, GroupBody>)
    ensures NormAll(m) == m <==> Settled(m)
    ensures Settled(NormAll(m))
  {
    hide KeepsSteps, Norm;
    forall id | id in m
      ensures Norm(m[id]) == m[id] <==> KeepsSteps(m[id])
      ensures KeepsSteps(NormAll(m)[id])
    {
      NormIff(m[id]);
    }
    assert forall id :: id in m ==> NormAll(m)[id] == Norm(m[id]);
  }

  // ------- building -------

  function Place(s: seq<Stream>, e: Stream): (k: nat)
    ensures k <= |s|
  {
    if s == [] || s[0].value.ordinal > e.value.ordinal then 0 else 1 + Place(s[1..], e)
  }

  /** In the order of their ordinals. */
  function Sorted(s: seq<Stream>): seq<Stream> {
    if s == [] then []
    else
      var r := Sorted(s[..|s| - 1]);
      InsertedAt(r, Place(r, s[|s| - 1]), s[|s| - 1])
  }

  lemma {:induction false} SortedSame(s: seq<Stream>)
    requires Distinct(s)
    ensures Distinct(Sorted(s)) && ToMap(Sorted(s)) == ToMap(s) && IdSet(Sorted(s)) == IdSet(s)
  {
    if s != [] {
      var n := |s| - 1;
      SnocMap(s);
      hide ToMap, IdSet, Distinct, InsertedAt;
      SortedSame(s[..n]);
      Inserted(Sorted(s[..n]), Place(Sorted(s[..n]), s[n]), s[n]);
    }
  }

  predicate Ordered(s: seq<Stream>) {
    forall i, j :: 0 <= i < j < |s| ==> s[i].value.ordinal <= s[j].value.ordinal
  }

  lemma {:induction false} PlaceParts(s: seq<Stream>, e: Stream)
    requires Ordered(s)
    ensures forall i :: 0 <= i < Place(s, e) ==> s[i].value.ordinal <= e.value.ordinal
    ensures forall i :: Place(s, e) <= i < |s| ==> s[i].value.ordinal > e.value.ordinal
  {
    if s != [] && s[0].value.ordinal <= e.value.ordinal { PlaceParts(s[1..], e); }
  }

  lemma {:induction false} SortedOrdered(s: seq<Stream>)
    ensures Ordered(Sorted(s))
  {
    if s != [] {
      var r, e := Sorted(s[..|s| - 1]), s[|s| - 1];
      SortedOrdered(s[..|s| - 1]);
      PlaceParts(r, e);
      InsertedIndex(r, Place(r, e), e);
    }
  }

  predicate AnyEnabled(s: seq<Stream>) { exists i :: 0 <= i < |s| && s[i].value.enabled }

  /** build: the agent puts its streams in order, unless they are sent interleaved and there is
      nothing to send. */
  function Build(a: Agent): Agent {
    if a.sequential || AnyEnabled(a.streams) then a.(streams := Sorted(a.streams)) else a
  }

  /** The ordinals are the indices. */
  predicate Numbered(s: seq<Stream>) { forall i :: 0 <= i < |s| ==> s[i].value.ordinal == i }

  /** The agent has these streams; as soon as there is something to send, in the order of their
      ordinals, and in this very order if the ordinals are the indices. */
  ghost predicate Carries(a: Agent, s: seq<Stream>) {
    && Distinct(a.streams) && Distinct(s) && ToMap(a.streams) == ToMap(s)
    && (a.sequential || AnyEnabled(s) ==> Ordered(a.streams) && (Numbered(s) ==> a.streams == s))
  }

  lemma SameEnabled(s: seq<Stream>, t: seq<Stream>)
    requires Distinct(s) && Distinct(t) && ToMap(s) == ToMap(t) && AnyEnabled(s)
    ensures AnyEnabled(t)
  {
    var i :| 0 <= i < |s| && s[i].value.enabled;
    var k := Counterpart(s, t, i);
  }

  lemma Counterpart(s: seq<Stream>, t: seq<Stream>, i: nat) returns (k: nat)
    requires Distinct(s) && Distinct(t) && ToMap(s) == ToMap(t) && i < |s|
    ensures k < |t| && t[k] == s[i]
  {
    MapAt(s, i);
    MapKeys(t);
    k :| 0 <= k < |t| && t[k].id == s[i].id;
    MapAt(t, k);
  }

  lemma {:induction false} CountIds<T>(s: seq<Entry<T>>)
    requires Distinct(s)
    ensures |IdSet(s)| == |s|
  {
    if s != [] {
      SnocMap(s);
      CountIds(s[..|s| - 1]);
    }
  }

  predicate Climbing(o: seq<nat>) { forall k :: 0 < k < |o| ==> o[k - 1] < o[k] }

  lemma {:induction false} ClimbedTo(o: seq<nat>, i: nat)
    requires Climbing(o) && i < |o|
    ensures i <= o[i]
  {
    if i > 0 { ClimbedTo(o, i - 1); }
  }

  lemma {:induction false} ClimbsOn(o: seq<nat>, i: nat)
    requires Climbing(o) && i < |o|
    ensures o[i] + (|o| - 1 - i) <= o[|o| - 1]
    decreases |o| - i
  {
    if i < |o| - 1 { ClimbsOn(o, i + 1); }
  }

  function Ordinals(s: seq<Stream>): (o: seq<nat>)
    ensures |o| == |s| && forall i :: 0 <= i < |s| ==> o[i] == s[i].value.ordinal
  {
    seq(|s|, i requires 0 <= i < |s| => s[i].value.ordinal)
  }

  /** Its ordinal says where a stream is in a numbered list. */
  lemma InItsPlace(s: seq<Stream>, t: seq<Stream>, i: nat)
    requires Distinct(s) && Distinct(t) && ToMap(s) == ToMap(t) && Numbered(t) && i < |s|
    ensures var o := s[i].value.ordinal; o < |t| && t[o] == s[i]
  {
    hide ToMap, Distinct;
    var k := Counterpart(s, t, i);
  }

  lemma OrdinalsClimb(s: seq<Stream>, t: seq<Stream>)
    requires Distinct(s) && Distinct(t) && ToMap(s) == ToMap(t) && Ordered(s) && Numbered(t)
    ensures Climbing(Ordinals(s))
  {
    forall k | 0 < k < |s| ensures s[k - 1].value.ordinal < s[k].value.ordinal {
      InItsPlace(s, t, k - 1);
      InItsPlace(s, t, k);
      assert s[k - 1].id != s[k].id;
    }
    hide ToMap, Distinct, Numbered;
  }

  lemma SameLength(s: seq<Stream>, t: seq<Stream>)
    requires Distinct(s) && Distinct(t) && ToMap(s) == ToMap(t)
    ensures |s| == |t|
  {
    hide ToMap, IdSet, Distinct;
    MapKeys(s);
    MapKeys(t);
    CountIds(s);
    CountIds(t);
  }

  /** Of the lists with the same streams, only one is in order when the ordinals are indices. */
  lemma OrderedByIndex(s: seq<Stream>, t: seq<Stream>)
    requires Distinct(s) && Distinct(t) && ToMap(s) == ToMap(t) && Ordered(s) && Numbered(t)
    ensures s == t
  {
    OrdinalsClimb(s, t);
    SameLength(s, t);
    hide ToMap, Distinct, Numbered, Ordered, Climbing;
    var n := |s| - 1;
    if n >= 0 { InItsPlace(s, t, n); }
    forall i | 0 <= i < |s| ensures s[i] == t[i] {
      InItsPlace(s, t, i);
      ClimbedTo(Ordinals(s), i);
      ClimbsOn(Ordinals(s), i);
    }
  }

  /** After a build the agent is ready to send. */
  lemma Built(a: Agent, s: seq<Stream>)
    requires Distinct(a.streams) && Distinct(s) && ToMap(a.streams) == ToMap(s)
    ensures Carries(Build(a), s) && SameSettings(a, Build(a)) && Build(a).groups == a.groups
  {
    hide ToMap, IdSet, Distinct, Ordered, Sorted, Numbered, AnyEnabled;
    SortedSame(a.streams);
    SortedOrdered(a.streams);
    if AnyEnabled(s) { SameEnabled(s, a.streams); }
    if (a.sequential || AnyEnabled(s)) && Numbered(s) { OrderedByIndex(Build(a).streams, s); }
  }

  lemma BuildSteady(a: Agent, mode: bool)
    requires Steady(a)
    ensures Steady(Build(a)) && Steady(a.(sequential := mode))
  {
  }
}
