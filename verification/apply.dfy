/**
 Applying local edits: the controller sends what was deleted, then what is new, then what was
 modified, and the agent ends with the controller's streams and device groups.
 */
module Apply {
  import opened Entries
  import opened Agent
  import opened PortEdits

  /** The controller knows what the agent has: its last lists name the agent's streams and
      groups, and a group it has not touched since is stored as it is, up to `Norm`. */
  ghost predicate Synced(p: PortState, a: Agent) {
    && Distinct(p.streams) && Distinct(p.groups) && Distinct(a.streams)
    && p.modified <= IdSet(p.groups)
    && IdSet(a.streams) == SetOf(p.lastStreams)
    && a.groups.Keys == SetOf(p.lastGroups)
    && Untouched(p, a)
  }

  ghost predicate Untouched(p: PortState, a: Agent) {
    forall i :: 0 <= i < |p.groups| && p.groups[i].id !in p.modified ==>
      p.groups[i].id in a.groups && a.groups[p.groups[i].id] == Norm(p.groups[i].value)
  }

  // ------- the requests -------

  /** `list` are the modified groups in the order they are sent.  An empty list is not sent,
      which makes no difference. */
  function SendGroups(p: PortState, a: Agent, list: seq<Group>): Agent {
    ModifyGroups(AddGroups(DeleteGroups(a, GroupsDeleted(p)), GroupsNew(p)), list)
  }

  function SendStreams(p: PortState, a: Agent): Agent {
    ModifyStreams(AddStreams(DeleteStreams(a, StreamsDeleted(p)), StreamsNew(p)), p.streams)
  }

  function Requested(p: PortState, a: Agent, list: seq<Group>): Agent {
    Build(SendStreams(p, SendGroups(p, a, list)))
  }

  // ------- streams -------

  lemma StreamsSent(p: PortState, a: Agent)
    requires Distinct(p.streams) && Distinct(a.streams) && IdSet(a.streams) == SetOf(p.lastStreams)
    ensures Distinct(SendStreams(p, a).streams)
    ensures ToMap(SendStreams(p, a).streams) == ToMap(p.streams) && SendStreams(p, a).groups == a.groups
    ensures SameSettings(a, SendStreams(p, a))
  {
    hide ToMap, IdSet, Distinct, SetOf, AddStreams, DeleteStreams, ModifyStreams;
    MissingSet(p.lastStreams, IdSet(p.streams));
    MissingSet(Ids(p.streams), SetOf(p.lastStreams));
    IdsSet(p.streams);
    var b := DeleteStreams(a, StreamsDeleted(p));
    DeletedStreams(a, StreamsDeleted(p));
    AddedStreams(b, StreamsNew(p));
    var c := AddStreams(b, StreamsNew(p));
    assert IdSet(c.streams) == IdSet(p.streams);
    ModifiedStreams(c, p.streams);
    MapKeys(c.streams);
    MapKeys(p.streams);
    AllOver(ToMap(c.streams), ToMap(p.streams));
  }

  lemma AllOver<T>(m: map<nat, T>, n: map<nat, T>)
    requires m.Keys == n.Keys
    ensures m + n == n
  {
  }

  // ------- device groups -------

  /** Deleting and adding leaves exactly the live ids, and the untouched groups as they were. */
  lemma GroupsPrepared(p: PortState, a: Agent)
    requires Synced(p, a)
    ensures var c := AddGroups(DeleteGroups(a, GroupsDeleted(p)), GroupsNew(p));
            c.groups.Keys == IdSet(p.groups) && Untouched(p, c) && c.streams == a.streams
  {
    hide Norm, AddGroups, DeleteGroups, Distinct;
    MissingSet(p.lastGroups, IdSet(p.groups));
    MissingSet(Ids(p.groups), SetOf(p.lastGroups));
    IdsSet(p.groups);
    var b := DeleteGroups(a, GroupsDeleted(p));
    DeletedGroups(a, GroupsDeleted(p));
    AddedGroups(b, GroupsNew(p));
    var c := AddGroups(b, GroupsNew(p));
    hide SetOf;
    assert c.groups.Keys == IdSet(p.groups);
    forall i | 0 <= i < |p.groups| && p.groups[i].id !in p.modified
      ensures p.groups[i].id in c.groups && c.groups[p.groups[i].id] == Norm(p.groups[i].value)
    {
      assert p.groups[i].id in IdSet(p.groups);
      assert p.groups[i].id in a.groups;
      assert p.groups[i].id in b.groups;
    }
  }

  lemma ListValue(p: PortState, list: seq<Group>, i: nat)
    requires Distinct(p.groups) && ModifiedList(p, list) && i < |p.groups| && p.groups[i].id in p.modified
    ensures p.groups[i].id in ToMap(list) && ToMap(list)[p.groups[i].id] == p.groups[i].value
  {
    var k :| 0 <= k < |list| && list[k].id == p.groups[i].id;
    assert list[k] == p.groups[i];
    MapAt(list, k);
  }

  lemma NormAllAt(m: map<nat, GroupBody>, id: nat)
    ensures NormAll(m).Keys == m.Keys && (id in m ==> NormAll(m)[id] == Norm(m[id]))
  {
  }

  lemma GroupSettled(p: PortState, c: Agent, list: seq<Group>, i: nat)
    requires Distinct(p.groups) && ModifiedList(p, list) && Untouched(p, c) && i < |p.groups|
    ensures var id := p.groups[i].id;
            id in c.groups + NormAll(ToMap(list))
            && (c.groups + NormAll(ToMap(list)))[id] == Norm(p.groups[i].value)
  {
    hide Norm, NormAll;
    var id := p.groups[i].id;
    MapKeys(list);
    NormAllAt(ToMap(list), id);
    if id in p.modified { ListValue(p, list, i); }
    hide ToMap, ModifiedList, Distinct;
  }

  lemma SameMap(p: PortState, r: map<nat, GroupBody>)
    requires Distinct(p.groups) && r.Keys == IdSet(p.groups)
    requires forall i :: 0 <= i < |p.groups| ==> p.groups[i].id in r && r[p.groups[i].id] == Norm(p.groups[i].value)
    ensures r == NormAll(ToMap(p.groups))
  {
    hide Norm, NormAll, ToMap;
    var m := ToMap(p.groups);
    MapKeys(p.groups);
    NormAllAt(m, 0);
    forall id | id in r ensures id in m && r[id] == NormAll(m)[id] {
      var i :| 0 <= i < |p.groups| && p.groups[i].id == id;
      MapAt(p.groups, i);
      NormAllAt(m, id);
    }
  }

  lemma GroupsSent(p: PortState, a: Agent, list: seq<Group>)
    requires Synced(p, a) && ModifiedList(p, list)
    ensures SendGroups(p, a, list).groups == NormAll(ToMap(p.groups))
    ensures SendGroups(p, a, list).streams == a.streams && SameSettings(a, SendGroups(p, a, list))
  {
    hide Norm, NormAll, ToMap, AddGroups, DeleteGroups, ModifyGroups, GroupsDeleted, GroupsNew;
    GroupsPrepared(p, a);
    var c := AddGroups(DeleteGroups(a, GroupsDeleted(p)), GroupsNew(p));
    ModifiedGroups(c, list);
    MapKeys(list);
    NormAllAt(ToMap(list), 0);
    forall i | 0 <= i < |p.groups|
      ensures p.groups[i].id in SendGroups(p, a, list).groups
      ensures SendGroups(p, a, list).groups[p.groups[i].id] == Norm(p.groups[i].value)
    {
      GroupSettled(p, c, list, i);
    }
    SameMap(p, SendGroups(p, a, list).groups);
  }

  // ------- together -------

  /** After an apply the agent carries the controller's streams, in the order it is to send them,
      and, up to `Norm`, its device groups, and the two are in step again. */
  lemma ApplyConverges(p: PortState, a: Agent, list: seq<Group>)
    requires Synced(p, a) && ModifiedList(p, list)
    ensures var b := Requested(p, a, list);
            && Carries(b, p.streams) && b.groups == NormAll(ToMap(p.groups)) && SameSettings(a, b)
            && Synced(SyncComplete(p), b)
  {
    hide Norm, SendGroups, SendStreams, Build, ToMap, SetOf, Ordered, Numbered, AnyEnabled;
    GroupsSent(p, a, list);
    var g := SendGroups(p, a, list);
    StreamsSent(p, g);
    var s := SendStreams(p, g);
    Built(s, p.streams);
    IdsSet(p.streams);
    IdsSet(p.groups);
    MapKeys(Build(s).streams);
    MapKeys(p.streams);
    MapKeys(p.groups);
    MapKeys(s.streams);
    forall i | 0 <= i < |p.groups|
      ensures p.groups[i].id in s.groups && s.groups[p.groups[i].id] == Norm(p.groups[i].value)
    {
      MapAt(p.groups, i);
    }
  }

  /** Groups whose steps the agent leaves alone. */
  predicate AllKeep(groups: seq<Group>) { forall i :: 0 <= i < |groups| ==> KeepsSteps(groups[i].value) }

  lemma AllKeepIff(groups: seq<Group>)
    requires Distinct(groups)
    ensures NormAll(ToMap(groups)) == ToMap(groups) <==> AllKeep(groups)
  {
    hide KeepsSteps, NormAll, ToMap, Distinct;
    SettledIff(ToMap(groups));
    MapKeys(groups);
    forall i | 0 <= i < |groups|
      ensures groups[i].id in ToMap(groups) && ToMap(groups)[groups[i].id] == groups[i].value
    {
      MapAt(groups, i);
    }
  }

  /** The agent's device groups are the controller's own exactly when no group of the controller
      has a zero MAC step or an IPv6 configuration without a step. */
  lemma ApplyEqualIff(p: PortState, a: Agent, list: seq<Group>)
    requires Synced(p, a) && ModifiedList(p, list)
    ensures Requested(p, a, list).groups == ToMap(p.groups) <==> AllKeep(p.groups)
  {
    assert Distinct(p.groups);
    hide Norm, NormAll, ToMap, Requested, Synced, AllKeep, Distinct;
    ApplyConverges(p, a, list);
    AllKeepIff(p.groups);
  }

  /** An apply leaves a steady agent steady. */
  lemma AppliedSteady(p: PortState, a: Agent, list: seq<Group>)
    requires Steady(a)
    ensures Steady(Requested(p, a, list))
  {
    hide Steady;
    GroupsSteady(a, GroupsDeleted(p), []);
    var b := DeleteGroups(a, GroupsDeleted(p));
    GroupsSteady(b, GroupsNew(p), []);
    GroupsSteady(AddGroups(b, GroupsNew(p)), [], list);
    var g := SendGroups(p, a, list);
    StreamsSteady(g, StreamsDeleted(p), []);
    var s := DeleteStreams(g, StreamsDeleted(p));
    StreamsSteady(s, StreamsNew(p), []);
    StreamsSteady(AddStreams(s, StreamsNew(p)), [], p.streams);
    BuildSteady(SendStreams(p, g), g.sequential);
  }

  // ------- edits in between -------

  /** Local edits, the agent staying as it is, keep the two in step. */
  lemma EditKeepsSynced(w: World, e: Edit, a: Agent)
    requires Sound(w) && Allowed(w, e) && Synced(w.port, a)
    requires !e.FetchStream? && !e.FetchGroup?
    ensures Synced(Edited(w, e).port, a)
  {
    hide Untouched, Distinct, IdSet, Below, Renumbered, InsertedAt, Without, NewGroupAt, DeleteGroupAt, SetGroupAt;
    EditSound(w, e);
    var p := w.port;
    match e {
      case AddGroup(index, body) => if index <= |p.groups| { AddKeeps(p, w.al.group, index, body, a); }
      case RemoveGroup(index) => if index < |p.groups| { RemoveKeeps(p, index, a); }
      case SetGroup(index, body) => if index < |p.groups| { SetKeeps(p, index, body, a); }
      case CopyStreams(list, count) =>
        CopiedLasts(w, Sources(p, list), count);
        SameGroups(p, Edited(w, e).port, a);
      case AddStream(_, _) => SameGroups(p, Edited(w, e).port, a);
      case RemoveStream(_) => SameGroups(p, Edited(w, e).port, a);
      case SetStream(_, _, _) => SameGroups(p, Edited(w, e).port, a);
      case _ =>
    }
  }

  lemma SameGroups(p: PortState, q: PortState, a: Agent)
    requires Untouched(p, a) && q.groups == p.groups && q.modified == p.modified
    ensures Untouched(q, a)
  {
  }

  lemma AddKeeps(p: PortState, id: nat, index: nat, body: GroupBody, a: Agent)
    requires Untouched(p, a) && index <= |p.groups|
    ensures var q := NewGroupAt(p, id, index, body);
            Untouched(q, a) && q.lastStreams == p.lastStreams && q.lastGroups == p.lastGroups
  {
    hide Norm;
    InsertedIndex(p.groups, index, Entry(id, body));
  }

  lemma RemoveKeeps(p: PortState, index: nat, a: Agent)
    requires Untouched(p, a) && Distinct(p.groups) && index < |p.groups|
    ensures var q := DeleteGroupAt(p, index);
            Untouched(q, a) && q.lastStreams == p.lastStreams && q.lastGroups == p.lastGroups
  {
    hide Norm;
    WithoutAt(p.groups, index);
  }

  lemma SetKeeps(p: PortState, index: nat, body: GroupBody, a: Agent)
    requires Untouched(p, a) && index < |p.groups|
    ensures var q := SetGroupAt(p, index, body);
            Untouched(q, a) && q.lastStreams == p.lastStreams && q.lastGroups == p.lastGroups
  {
    hide Norm;
  }

  lemma {:induction false} CopiedLasts(w: World, sources: seq<StreamBody>, count: nat)
    ensures var q := CopiedTimes(w, sources, count).port;
            && q.lastStreams == w.port.lastStreams && q.lastGroups == w.port.lastGroups
            && q.groups == w.port.groups && q.modified == w.port.modified
  {
    if count > 0 { CopiedLasts(w, sources, count - 1); }
  }

  datatype Step = Local(edit: Edit) | ApplyAll(order: seq<Group>)

  datatype Pair = Pair(world: World, agent: Agent)

  predicate Enabled(s: Pair, step: Step) {
    match step
    case Local(e) => Allowed(s.world, e) && !e.FetchStream? && !e.FetchGroup?
    case ApplyAll(order) => ModifiedList(s.world.port, order)
  }

  function Next(s: Pair, step: Step): Pair
    requires Enabled(s, step)
  {
    match step
    case Local(e) => s.(world := Edited(s.world, e))
    case ApplyAll(order) =>
      Pair(s.world.(port := SyncComplete(s.world.port)), Requested(s.world.port, s.agent, order))
  }

  predicate EnabledRun(s: Pair, steps: seq<Step>)
    decreases |steps|
  {
    steps == [] || (Enabled(s, steps[0]) && EnabledRun(Next(s, steps[0]), steps[1..]))
  }

  function RunPair(s: Pair, steps: seq<Step>): Pair
    requires EnabledRun(s, steps)
    decreases |steps|
  {
    if steps == [] then s else RunPair(Next(s, steps[0]), steps[1..])
  }

  ghost predicate InStep(s: Pair) { Sound(s.world) && Synced(s.world.port, s.agent) }

  lemma StepKeeps(s: Pair, step: Step)
    requires InStep(s) && Enabled(s, step)
    ensures InStep(Next(s, step))
  {
    hide Synced, Requested, Edited, Allowed;
    match step
    case Local(e) =>
      EditSound(s.world, e);
      EditKeepsSynced(s.world, e, s.agent);
    case ApplyAll(order) => ApplyConverges(s.world.port, s.agent, order);
  }

  /** Any number of edits and applies, in any order, keeps controller and agent in step. */
  lemma {:induction false} RunKeeps(s: Pair, steps: seq<Step>)
    requires InStep(s) && EnabledRun(s, steps)
    ensures InStep(RunPair(s, steps))
    decreases |steps|
  {
    hide InStep, Next, Enabled;
    if steps != [] {
      StepKeeps(s, steps[0]);
      RunKeeps(Next(s, steps[0]), steps[1..]);
    }
  }

  /** So an apply after any run makes the agent hold what the controller holds. */
  lemma RunThenApply(s: Pair, steps: seq<Step>, order: seq<Group>)
    requires InStep(s) && EnabledRun(s, steps) && ModifiedList(RunPair(s, steps).world.port, order)
    ensures var t := RunPair(s, steps);
            var b := Requested(t.world.port, t.agent, order);
            && Carries(b, t.world.port.streams) && Distinct(t.world.port.groups)
            && b.groups == NormAll(ToMap(t.world.port.groups))
  {
    hide Requested, Norm, ToMap, Edited, RunPair;
    RunKeeps(s, steps);
    ApplyConverges(RunPair(s, steps).world.port, RunPair(s, steps).agent, order);
  }
}
