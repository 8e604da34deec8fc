/**
 Opening a session on one port: the replies that the controller gets, the requests it makes
 of them, and where the exchange ends.

 Requests are answered one at a time in the order they were made, so a port's part of the
 exchange is a queue of requests; `Step` takes the first of them to the agent and its answer
 back to the controller.
 */
module SessionOpen {
  import opened Options
  import opened Entries
  import opened Agent
  import opened PortEdits
  import opened Apply

  /** What a session file holds for a port; `changesPort` says whether its port settings
      differ from the current ones, and `mode` what the transmit mode is to be, true for
      sequential, if that is among the differences. */
  datatype Content = Content(streams: seq<Stream>, groups: seq<Group>, changesPort: bool, mode: Option<bool>)

  datatype Rpc =
    | GetDeviceGroupIds
    | GetStreamIds
    | DeleteDeviceGroup(groupIds: seq<nat>)
    | DeleteStream(streamIds: seq<nat>)
    | ModifyPort(mode: Option<bool>)
    | AddDeviceGroup(groupIds: seq<nat>)
    | ModifyDeviceGroup(groups: seq<Group>)
    | AddStream(streamIds: seq<nat>)
    | ModifyStream(streams: seq<Stream>)
    | BuildPackets
    | GetDeviceGroupConfig(groupIds: seq<nat>)
    | GetStreamConfig(streamIds: seq<nat>)
    | GetDeviceList
    | GetDeviceNeighbors

  /** The order in which an agent lists its device group ids: that of a hash table, which may
      be another one each time.  The number tells the times apart. */
  type KeyOrder = (nat, set<nat>) -> seq<nat>

  ghost predicate ListsKeys(order: KeyOrder) {
    forall n: nat, s: set<nat> {:trigger order(n, s)} :: DistinctIds(order(n, s)) && SetOf(order(n, s)) == s
  }

  predicate DistinctIds(ids: seq<nat>) { forall i, j :: 0 <= i < j < |ids| ==> ids[i] != ids[j] }

  /** `pending` is the content still to be sent; `blank` is what a device group holds before
      its configuration arrives; `reconfigured` counts the times the content was sent. */
  datatype Conf = Conf(agent: Agent, client: PortState, blank: GroupBody, order: KeyOrder,
                       pending: Option<Content>, queue: seq<Rpc>, reconfigured: nat)
  {
    /** What the agent answers when it is asked for its device group ids. */
    function GroupIds(): seq<nat> { order(reconfigured, agent.groups.Keys) }
  }

  ghost function SomeList(s: set<nat>): seq<nat>
    decreases |s|
  {
    if s == {} then []
    else
      var x :| x in s;
      SomeList(s - {x}) + [x]
  }

  lemma {:induction false} SomeListLists(s: set<nat>)
    ensures DistinctIds(SomeList(s)) && SetOf(SomeList(s)) == s
    decreases |s|
  {
    var r := SomeList(s);
    if s == {} {
      SetOfNone(r);
    } else {
      var (x, n) := (r[|r| - 1], |r| - 1);
      assert r[..n] == SomeList(s - {x});
      SomeListLists(s - {x});
      hide SomeList, SetOf, DistinctIds;
      SetOfSnoc(r);
      OneMoreDistinct(r);
    }
  }

  lemma OneMoreDistinct(r: seq<nat>)
    requires r != [] && DistinctIds(r[..|r| - 1]) && r[|r| - 1] !in SetOf(r[..|r| - 1])
    ensures DistinctIds(r)
  {
    var (n, s) := (|r| - 1, r[..|r| - 1]);
    forall i, j | 0 <= i < j < |r| ensures r[i] != r[j] {
      assert s[i] == r[i] && s[i] in SetOf(s);
      if j < n { assert s[j] == r[j]; }
    }
  }

  /** There are such orders, so the theorems that suppose `ListsKeys` are about something. */
  lemma OrdersExist()
    ensures exists order: KeyOrder :: ListsKeys(order)
  {
    var order: KeyOrder := (n: nat, s: set<nat>) => SomeList(s);
    forall n: nat, s: set<nat> {:trigger order(n, s)} ensures DistinctIds(order(n, s)) && SetOf(order(n, s)) == s {
      SomeListLists(s);
    }
    assert ListsKeys(order);
  }

  // ------- answers of the agent -------

  function GroupConfigs(a: Agent, ids: seq<nat>): seq<Group> {
    if ids == [] then []
    else
      var rest := GroupConfigs(a, ids[..|ids| - 1]);
      var id := ids[|ids| - 1];
      if id in a.groups then rest + [Entry(id, a.groups[id])] else rest
  }

  function StreamConfigs(a: Agent, ids: seq<nat>): seq<Stream> {
    if ids == [] then []
    else
      var rest := StreamConfigs(a, ids[..|ids| - 1]);
      var k := Find(a.streams, ids[|ids| - 1]);
      if k < |a.streams| then rest + [a.streams[k]] else rest
  }

  // ------- what the controller makes of them -------

  function InsertGroups(p: PortState, ids: seq<nat>, blank: GroupBody): PortState {
    if ids == [] then p
    else InsertGroup(InsertGroups(p, ids[..|ids| - 1], blank), ids[|ids| - 1], blank)
  }

  function UpdateGroups(p: PortState, list: seq<Group>): PortState {
    if list == [] then p else UpdateGroup(UpdateGroups(p, list[..|list| - 1]), list[|list| - 1])
  }

  function InsertStreams(p: PortState, ids: seq<nat>): PortState {
    if ids == [] then p else InsertStream(InsertStreams(p, ids[..|ids| - 1]), ids[|ids| - 1])
  }

  function UpdateStreams(p: PortState, list: seq<Stream>): PortState {
    if list == [] then p else UpdateStream(UpdateStreams(p, list[..|list| - 1]), list[|list| - 1])
  }

  function DeviceInfo(): seq<Rpc> { [GetDeviceList, GetDeviceNeighbors] }

  function OnGroupIds(c: Conf, ids: seq<nat>): Conf {
    if c.pending.Some? then
      if ids == [] then c else c.(queue := c.queue + [DeleteDeviceGroup(ids)])
    else
      var p := InsertGroups(c.client, ids, c.blank);
      c.(client := p,
         queue := c.queue + if p.groups == [] then DeviceInfo() else [GetDeviceGroupConfig(Ids(p.groups))])
  }

  function DeletePart(ids: seq<nat>): seq<Rpc> { if ids == [] then [] else [DeleteStream(ids)] }

  function GroupPart(groups: seq<Group>): seq<Rpc> {
    if groups == [] then [] else [AddDeviceGroup(Ids(groups)), ModifyDeviceGroup(groups)]
  }

  function StreamPart(streams: seq<Stream>): seq<Rpc> {
    if streams == [] then [] else [Rpc.AddStream(Ids(streams)), ModifyStream(streams)]
  }

  /** The requests that replace what is on a port. */
  function Reconfiguration(ids: seq<nat>, content: Content): seq<Rpc> {
    DeletePart(ids) + (if content.changesPort then [ModifyPort(content.mode)] else [])
    + GroupPart(content.groups) + StreamPart(content.streams) + [BuildPackets]
  }

  function OnStreamIds(c: Conf, ids: seq<nat>): Conf {
    if c.pending.Some? then
      c.(pending := None, reconfigured := c.reconfigured + 1,
         queue := c.queue + Reconfiguration(ids, c.pending.value) + [GetDeviceGroupIds, GetStreamIds])
    else
      var p := SyncComplete(InsertStreams(c.client, ids));
      c.(client := p, queue := c.queue + if p.streams == [] then [] else [GetStreamConfig(Ids(p.streams))])
  }

  /** Requests that only the agent acts on. */
  predicate AgentOnly(r: Rpc) {
    r.DeleteDeviceGroup? || r.DeleteStream? || r.ModifyPort? || r.AddDeviceGroup? || r.ModifyDeviceGroup?
    || r.AddStream? || r.ModifyStream? || r.BuildPackets? || r.GetDeviceList? || r.GetDeviceNeighbors?
  }

  function AgentDo(a: Agent, r: Rpc): Agent {
    match r
    case DeleteDeviceGroup(ids) => DeleteGroups(a, ids)
    case DeleteStream(ids) => DeleteStreams(a, ids)
    case AddDeviceGroup(ids) => AddGroups(a, ids)
    case ModifyDeviceGroup(groups) => ModifyGroups(a, groups)
    case AddStream(ids) => AddStreams(a, ids)
    case ModifyStream(streams) => ModifyStreams(a, streams)
    case ModifyPort(mode) => if mode.Some? then a.(sequential := mode.value) else a
    case BuildPackets => Build(a)
    case _ => a
  }

  /** The answer reaches the controller. */
  function Replied(d: Conf, r: Rpc): Conf {
    match r
    case GetDeviceGroupIds => OnGroupIds(d, d.GroupIds())
    case GetStreamIds => OnStreamIds(d, Ids(d.agent.streams))
    case GetDeviceGroupConfig(ids) =>
      d.(client := UpdateGroups(d.client, GroupConfigs(d.agent, ids)), queue := d.queue + DeviceInfo())
    case GetStreamConfig(ids) => d.(client := UpdateStreams(d.client, StreamConfigs(d.agent, ids)))
    case _ => d
  }

  function Step(c: Conf): Conf {
    if c.queue == [] then c
    else Replied(c.(agent := AgentDo(c.agent, c.queue[0]), queue := c.queue[1..]), c.queue[0])
  }

  function Runs(c: Conf, n: nat): Conf
    decreases n
  {
    if n == 0 then c else Runs(Step(c), n - 1)
  }

  lemma {:induction false} RunsSum(c: Conf, m: nat, n: nat)
    ensures Runs(c, m + n) == Runs(Runs(c, m), n)
    decreases m
  {
    hide Step;
    if m > 0 { RunsSum(Step(c), m - 1, n); }
  }

  lemma {:induction false} RunsIdle(c: Conf, n: nat)
    requires c.queue == []
    ensures Runs(c, n) == c
    decreases n
  {
    if n > 0 { RunsIdle(c, n - 1); }
  }

  // ------- fetching -------

  lemma DistinctSnoc(ids: seq<nat>)
    requires DistinctIds(ids) && ids != []
    ensures DistinctIds(ids[..|ids| - 1]) && ids[|ids| - 1] !in SetOf(ids[..|ids| - 1])
    ensures SetOf(ids) == SetOf(ids[..|ids| - 1]) + {ids[|ids| - 1]}
  {
    SetOfSnoc(ids);
  }

  lemma IdsSnoc<T>(s: seq<Entry<T>>, e: Entry<T>)
    ensures Ids(s + [e]) == Ids(s) + [e.id]
  {
  }

  lemma {:induction false} InsertedGroupList(p: PortState, ids: seq<nat>, blank: GroupBody)
    requires p.groups == [] && DistinctIds(ids)
    ensures var q := InsertGroups(p, ids, blank);
            && q == p.(groups := q.groups)
            && Distinct(q.groups) && Ids(q.groups) == ids && IdSet(q.groups) == SetOf(ids)
  {
    if ids != [] {
      var id := ids[|ids| - 1];
      var q := InsertGroups(p, ids[..|ids| - 1], blank);
      assert InsertGroups(p, ids, blank) == InsertGroup(q, id, blank);
      DistinctSnoc(ids);
      hide SetOf, IdSet, Distinct, DistinctIds, ToMap, InsertGroups, Ids;
      InsertedGroupList(p, ids[..|ids| - 1], blank);
      FindIn(q.groups, id);
      Appended(q.groups, Entry(id, blank));
      IdsSnoc(q.groups, Entry(id, blank));
      assert ids == ids[..|ids| - 1] + [id];
    }
  }

  lemma {:induction false} InsertedStreamList(p: PortState, ids: seq<nat>)
    requires p.streams == [] && DistinctIds(ids)
    ensures var q := InsertStreams(p, ids);
            && q == p.(streams := q.streams)
            && Distinct(q.streams) && Ids(q.streams) == ids && IdSet(q.streams) == SetOf(ids)
  {
    if ids != [] {
      var id := ids[|ids| - 1];
      var q := InsertStreams(p, ids[..|ids| - 1]);
      assert InsertStreams(p, ids) == InsertStream(q, id);
      DistinctSnoc(ids);
      hide SetOf, IdSet, Distinct, DistinctIds, ToMap, InsertStreams, Ids;
      InsertedStreamList(p, ids[..|ids| - 1]);
      Appended(q.streams, Entry(id, DEFAULT_STREAM));
      IdsSnoc(q.streams, Entry(id, DEFAULT_STREAM));
      assert ids == ids[..|ids| - 1] + [id];
    }
  }

  lemma {:induction false} UpdatedGroups(p: PortState, list: seq<Group>)
    requires Distinct(p.groups) && Distinct(list) && IdSet(list) <= IdSet(p.groups)
    ensures var q := UpdateGroups(p, list);
            && q == p.(groups := q.groups)
            && Distinct(q.groups) && IdSet(q.groups) == IdSet(p.groups)
            && ToMap(q.groups) == ToMap(p.groups) + ToMap(list)
  {
    if list == [] {
      assert ToMap(list) == map[];
    } else {
      var n := |list| - 1;
      var q := UpdateGroups(p, list[..n]);
      SnocMap(list);
      hide ToMap, IdSet, Distinct;
      UpdatedGroups(p, list[..n]);
      FindIn(q.groups, list[n].id);
      Replaced(q.groups, Find(q.groups, list[n].id), list[n].value);
      Overwritten(ToMap(p.groups), ToMap(list[..n]), list[n].id, list[n].value);
    }
  }

  lemma {:induction false} UpdatedStreams(p: PortState, list: seq<Stream>)
    requires Distinct(p.streams) && Distinct(list) && IdSet(list) <= IdSet(p.streams)
    ensures var q := UpdateStreams(p, list);
            && q == p.(streams := q.streams)
            && Distinct(q.streams) && IdSet(q.streams) == IdSet(p.streams)
            && ToMap(q.streams) == ToMap(p.streams) + ToMap(list)
            && (list != [] ==> Ordered(q.streams))
  {
    if list == [] {
      assert ToMap(list) == map[];
    } else {
      var n := |list| - 1;
      var q := UpdateStreams(p, list[..n]);
      SnocMap(list);
      hide ToMap, IdSet, Distinct, Ordered, Sorted;
      UpdatedStreams(p, list[..n]);
      FindIn(q.streams, list[n].id);
      var k := Find(q.streams, list[n].id);
      Replaced(q.streams, k, list[n].value);
      SortedSame(q.streams[k := list[n]]);
      SortedOrdered(q.streams[k := list[n]]);
      Overwritten(ToMap(p.streams), ToMap(list[..n]), list[n].id, list[n].value);
    }
  }

  lemma {:induction false} ConfigsOfGroups(a: Agent, ids: seq<nat>)
    requires DistinctIds(ids) && SetOf(ids) <= a.groups.Keys
    ensures var r := GroupConfigs(a, ids);
            && Distinct(r) && IdSet(r) == SetOf(ids)
            && forall i :: 0 <= i < |r| ==> r[i].id in a.groups && r[i].value == a.groups[r[i].id]
  {
    if ids != [] {
      DistinctSnoc(ids);
      hide SetOf, IdSet, Distinct, DistinctIds, ToMap;
      ConfigsOfGroups(a, ids[..|ids| - 1]);
      var id := ids[|ids| - 1];
      Appended(GroupConfigs(a, ids[..|ids| - 1]), Entry(id, a.groups[id]));
    }
  }

  lemma {:induction false} ConfigsOfStreams(a: Agent, ids: seq<nat>)
    requires Distinct(a.streams) && DistinctIds(ids) && SetOf(ids) <= IdSet(a.streams)
    ensures var r := StreamConfigs(a, ids);
            && Distinct(r) && IdSet(r) == SetOf(ids)
            && forall i :: 0 <= i < |r| ==> r[i] in a.streams
  {
    if ids != [] {
      DistinctSnoc(ids);
      hide SetOf, IdSet, Distinct, DistinctIds, ToMap;
      ConfigsOfStreams(a, ids[..|ids| - 1]);
      var id := ids[|ids| - 1];
      FindIn(a.streams, id);
      Appended(StreamConfigs(a, ids[..|ids| - 1]), a.streams[Find(a.streams, id)]);
    }
  }

  /** All configurations together are the agent's own map. */
  lemma AllGroupConfigs(a: Agent, ids: seq<nat>)
    requires DistinctIds(ids) && SetOf(ids) == a.groups.Keys
    ensures Distinct(GroupConfigs(a, ids)) && ToMap(GroupConfigs(a, ids)) == a.groups
    ensures IdSet(GroupConfigs(a, ids)) == SetOf(ids)
  {
    hide ToMap, SetOf;
    ConfigsOfGroups(a, ids);
    var r := GroupConfigs(a, ids);
    hide GroupConfigs;
    assert Maps(r, a.groups);
    MapsIsMap(r, a.groups);
  }

  lemma AllStreamConfigs(a: Agent, ids: seq<nat>)
    requires Distinct(a.streams) && DistinctIds(ids) && SetOf(ids) == IdSet(a.streams)
    ensures Distinct(StreamConfigs(a, ids)) && ToMap(StreamConfigs(a, ids)) == ToMap(a.streams)
    ensures IdSet(StreamConfigs(a, ids)) == SetOf(ids)
  {
    ConfigsOfStreams(a, ids);
    hide ToMap, SetOf;
    var r := StreamConfigs(a, ids);
    hide StreamConfigs;
    MapKeys(a.streams);
    forall i | 0 <= i < |r| ensures r[i].id in ToMap(a.streams) && ToMap(a.streams)[r[i].id] == r[i].value {
      var k :| 0 <= k < |a.streams| && a.streams[k] == r[i];
      MapAt(a.streams, k);
    }
    assert Maps(r, ToMap(a.streams));
    MapsIsMap(r, ToMap(a.streams));
  }

  // ------- the fetch sequence -------

  /** What a fetch leaves: the controller holds the agent's streams, in order, and its device
      groups, and the two are in step. */
  ghost predicate Fetched(c: Conf) {
    && c.queue == [] && c.pending.None?
    && Distinct(c.client.streams) && Distinct(c.client.groups) && Distinct(c.agent.streams)
    && ToMap(c.client.streams) == ToMap(c.agent.streams) && Ordered(c.client.streams)
    && ToMap(c.client.groups) == c.agent.groups
    && SetOf(c.client.lastStreams) == IdSet(c.client.streams)
    && SetOf(c.client.lastGroups) == IdSet(c.client.groups)
    && c.client.modified == {} && !c.client.dirty
  }

  /** The controller knows nothing of the port yet. */
  predicate Empty(p: PortState) { p.streams == [] && p.groups == [] && p.modified == {} && !p.dirty }

  lemma NoIds<T>(s: seq<Entry<T>>)
    ensures s == [] <==> IdSet(s) == {}
  {
    if s != [] { assert s[0].id in IdSet(s); }
  }

  lemma DistinctIdList<T>(s: seq<Entry<T>>)
    requires Distinct(s)
    ensures DistinctIds(Ids(s)) && SetOf(Ids(s)) == IdSet(s)
  {
    IdsSet(s);
  }

  /** The ids of the device groups arrive. */
  function HasGroups(c: Conf): PortState { InsertGroups(c.client, c.GroupIds(), c.blank) }

  lemma GroupIdsArrive(c: Conf)
    requires c.pending.None? && c.client.groups == [] && ListsKeys(c.order)
    ensures var p := HasGroups(c);
            && p == c.client.(groups := p.groups) && Distinct(p.groups)
            && IdSet(p.groups) == c.agent.groups.Keys && DistinctIds(Ids(p.groups))
            && (p.groups == [] <==> c.agent.groups == map[])
  {
    InsertedGroupList(c.client, c.GroupIds(), c.blank);
    var p := HasGroups(c);
    DistinctIdList(p.groups);
    NoIds(p.groups);
  }

  /** Then those of the streams, and the lists of the last synchronisation are taken. */
  function HasStreams(p: PortState, a: Agent): PortState { SyncComplete(InsertStreams(p, Ids(a.streams))) }

  lemma StreamIdsArrive(p: PortState, a: Agent)
    requires p.streams == [] && Distinct(a.streams) && Distinct(p.groups)
    ensures var q := HasStreams(p, a);
            && q.groups == p.groups && Distinct(q.streams)
            && IdSet(q.streams) == IdSet(a.streams) && DistinctIds(Ids(q.streams))
            && SetOf(q.lastStreams) == IdSet(q.streams) && SetOf(q.lastGroups) == IdSet(q.groups)
            && q.modified == {} && !q.dirty && |q.streams| == |a.streams|
  {
    DistinctIdList(a.streams);
    InsertedStreamList(p, Ids(a.streams));
    var q := HasStreams(p, a);
    DistinctIdList(q.streams);
    IdsSet(q.groups);
  }

  /** Then the configurations, of the groups and of the streams. */
  function HasGroupConfigs(p: PortState, a: Agent): PortState { UpdateGroups(p, GroupConfigs(a, Ids(p.groups))) }

  function HasStreamConfigs(p: PortState, a: Agent): PortState { UpdateStreams(p, StreamConfigs(a, Ids(p.streams))) }

  lemma GroupConfigsArrive(p: PortState, a: Agent)
    requires Distinct(p.groups) && IdSet(p.groups) == a.groups.Keys
    ensures var q := HasGroupConfigs(p, a);
            && q == p.(groups := q.groups) && Distinct(q.groups)
            && IdSet(q.groups) == IdSet(p.groups) && ToMap(q.groups) == a.groups
  {
    hide ToMap, IdSet, SetOf;
    DistinctIdList(p.groups);
    AllGroupConfigs(a, Ids(p.groups));
    UpdatedGroups(p, GroupConfigs(a, Ids(p.groups)));
    MapKeys(p.groups);
    AllOver(ToMap(p.groups), a.groups);
  }

  lemma StreamConfigsArrive(p: PortState, a: Agent)
    requires Distinct(p.streams) && Distinct(a.streams) && IdSet(p.streams) == IdSet(a.streams)
    requires |p.streams| == |a.streams|
    ensures var q := HasStreamConfigs(p, a);
            && q == p.(streams := q.streams) && Distinct(q.streams) && Ordered(q.streams)
            && IdSet(q.streams) == IdSet(p.streams) && ToMap(q.streams) == ToMap(a.streams)
  {
    DistinctIdList(p.streams);
    hide ToMap, SetOf;
    AllStreamConfigs(a, Ids(p.streams));
    UpdatedStreams(p, StreamConfigs(a, Ids(p.streams)));
    MapKeys(p.streams);
    MapKeys(a.streams);
    AllOver(ToMap(p.streams), ToMap(a.streams));
    if StreamConfigs(a, Ids(p.streams)) == [] {
      assert IdSet(StreamConfigs(a, Ids(p.streams))) == {};
      NoIds(p.streams);
    }
  }

  lemma FirstTwo(c: Conf)
    requires c.queue == [GetDeviceGroupIds, GetStreamIds] && c.pending.None?
    requires Empty(c.client) && Distinct(c.agent.streams)
    ensures var p := HasGroups(c);
            var q := HasStreams(p, c.agent);
            Runs(c, 2) == c.(client := q,
              queue := (if p.groups == [] then DeviceInfo() else [GetDeviceGroupConfig(Ids(p.groups))])
                       + (if q.streams == [] then [] else [GetStreamConfig(Ids(q.streams))]))
  {
    hide Ids, InsertGroups, InsertStreams;
    var d := Step(c);
    assert d.queue == [GetStreamIds] + if HasGroups(c).groups == [] then DeviceInfo()
        else [GetDeviceGroupConfig(Ids(HasGroups(c).groups))];
    var e := Step(d);
    assert Runs(c, 2) == Runs(d, 1) == Runs(e, 0) == e;
  }

  /** The rest of the fetch, when both kinds of configuration are still to come. */
  lemma Remainder(c: Conf, g: seq<nat>, s: seq<nat>)
    requires c.pending.None?
    requires c.queue == [GetDeviceGroupConfig(g), GetStreamConfig(s)]
    ensures var p := UpdateGroups(c.client, GroupConfigs(c.agent, g));
            Runs(c, 4) == c.(client := UpdateStreams(p, StreamConfigs(c.agent, s)), queue := [])
  {
    hide UpdateGroups, UpdateStreams, GroupConfigs, StreamConfigs;
    var d := Step(c);
    assert d.queue == [GetStreamConfig(s), GetDeviceList, GetDeviceNeighbors];
    var e := Step(d);
    assert e.queue == [GetDeviceList, GetDeviceNeighbors];
    DeviceInfoIdle(e);
    RunsSum(c, 2, 2);
    assert Runs(c, 2) == Runs(d, 1) == Runs(e, 0);
  }

  lemma DeviceInfoIdle(c: Conf)
    requires c.queue == [GetDeviceList, GetDeviceNeighbors]
    ensures Runs(c, 2) == c.(queue := [])
  {
    var d := Step(c);
    assert d.queue == [GetDeviceNeighbors];
    var e := Step(d);
    assert e.queue == [];
    assert Runs(c, 2) == Runs(d, 1) == Runs(e, 0);
  }

  lemma GroupsOnly(c: Conf, g: seq<nat>)
    requires c.pending.None? && c.queue == [GetDeviceGroupConfig(g)]
    ensures Runs(c, 3) == c.(client := UpdateGroups(c.client, GroupConfigs(c.agent, g)), queue := [])
  {
    hide UpdateGroups, GroupConfigs;
    var d := Step(c);
    assert d.queue == [GetDeviceList, GetDeviceNeighbors];
    DeviceInfoIdle(d);
    assert Runs(c, 3) == Runs(d, 2);
  }

  lemma StreamsOnly(c: Conf, s: seq<nat>)
    requires c.pending.None? && c.queue == [GetDeviceList, GetDeviceNeighbors, GetStreamConfig(s)]
    ensures Runs(c, 3) == c.(client := UpdateStreams(c.client, StreamConfigs(c.agent, s)), queue := [])
  {
    hide UpdateStreams, StreamConfigs;
    var d := Step(c);
    assert d.queue == [GetDeviceNeighbors, GetStreamConfig(s)];
    var e := Step(d);
    assert e.queue == [GetStreamConfig(s)];
    var f := Step(e);
    assert Runs(c, 3) == Runs(d, 2) == Runs(e, 1) == Runs(f, 0);
  }

  /** Six requests at most, and the port is fetched. */
  lemma Fetches(c: Conf)
    requires c.queue == [GetDeviceGroupIds, GetStreamIds] && c.pending.None?
    requires Empty(c.client) && Distinct(c.agent.streams) && ListsKeys(c.order)
    ensures Fetched(Runs(c, 6))
    ensures Runs(c, 6).agent == c.agent && Runs(c, 6).reconfigured == c.reconfigured
  {
    hide HasGroups, HasStreams, HasGroupConfigs, HasStreamConfigs, Runs, ToMap, IdSet, SetOf, Distinct, Ordered, Ids,
         DistinctIds, UpdateGroups, UpdateStreams, GroupConfigs, StreamConfigs;
    var a := c.agent;
    var p := HasGroups(c);
    var q := HasStreams(p, a);
    GroupIdsArrive(c);
    StreamIdsArrive(p, a);
    FirstTwo(c);
    RunsSum(c, 2, 4);
    var d := Runs(c, 2);
    FetchEnds(d, p, q, a);
  }

  lemma FetchEnds(d: Conf, p: PortState, q: PortState, a: Agent)
    requires d.agent == a && d.client == q && d.pending.None? && q.groups == p.groups
    requires d.queue == (if p.groups == [] then DeviceInfo() else [GetDeviceGroupConfig(Ids(p.groups))])
                        + (if q.streams == [] then [] else [GetStreamConfig(Ids(q.streams))])
    requires Distinct(q.streams) && Distinct(q.groups) && Distinct(a.streams)
    requires IdSet(q.groups) == a.groups.Keys && IdSet(q.streams) == IdSet(a.streams) && |q.streams| == |a.streams|
    requires SetOf(q.lastStreams) == IdSet(q.streams) && SetOf(q.lastGroups) == IdSet(q.groups)
    requires q.modified == {} && !q.dirty
    ensures Fetched(Runs(d, 4)) && Runs(d, 4).agent == a && Runs(d, 4).reconfigured == d.reconfigured
  {
    hide Runs, ToMap, IdSet, SetOf, Distinct, Ordered, Ids, DistinctIds, UpdateGroups, UpdateStreams, GroupConfigs,
        StreamConfigs;
    var u := HasGroupConfigs(q, a);
    GroupConfigsArrive(q, a);
    var v := HasStreamConfigs(u, a);
    StreamConfigsArrive(u, a);
    if p.groups != [] {
      if q.streams != [] {
        Remainder(d, Ids(q.groups), Ids(q.streams));
      } else {
        GroupsOnly(d, Ids(q.groups));
        RunsSum(d, 3, 1);
        RunsIdle(Runs(d, 3), 1);
        NoStreams(u, a);
      }
    } else {
      NoGroups(q, a);
      if q.streams != [] {
        StreamsOnly(d, Ids(q.streams));
        RunsSum(d, 3, 1);
        RunsIdle(Runs(d, 3), 1);
      } else {
        DeviceInfoIdle(d);
        RunsSum(d, 2, 2);
        RunsIdle(Runs(d, 2), 2);
        NoStreams(u, a);
      }
    }
  }

  lemma NoStreams(p: PortState, a: Agent)
    requires p.streams == []
    ensures HasStreamConfigs(p, a) == p
  {
    assert Ids(p.streams) == [];
  }

  lemma NoGroups(p: PortState, a: Agent)
    requires p.groups == []
    ensures HasGroupConfigs(p, a) == p
  {
    assert Ids(p.groups) == [];
  }

  // ------- the reconfiguration sequence -------

  function AgentDoAll(a: Agent, rs: seq<Rpc>): Agent
    decreases |rs|
  {
    if rs == [] then a else AgentDoAll(AgentDo(a, rs[0]), rs[1..])
  }

  lemma {:induction false} DoConcat(a: Agent, rs: seq<Rpc>, ts: seq<Rpc>)
    ensures AgentDoAll(a, rs + ts) == AgentDoAll(AgentDoAll(a, rs), ts)
    decreases |rs|
  {
    hide AgentDo;
    if rs == [] {
      assert rs + ts == ts;
    } else {
      assert (rs + ts)[1..] == rs[1..] + ts;
      DoConcat(AgentDo(a, rs[0]), rs[1..], ts);
    }
  }

  /** A stretch of requests that ask for nothing. */
  lemma {:induction false} Drained(c: Conf, rs: seq<Rpc>, rest: seq<Rpc>)
    requires c.queue == rs + rest && AllOnly(rs)
    ensures Runs(c, |rs|) == c.(agent := AgentDoAll(c.agent, rs), queue := rest)
    decreases |rs|
  {
    if rs == [] {
      assert rs + rest == rest;
    } else {
      assert c.queue[1..] == rs[1..] + rest;
      assert AgentOnly(rs[0]);
      assert Step(c) == c.(agent := AgentDo(c.agent, rs[0]), queue := rs[1..] + rest);
      hide Step, AgentDo;
      Drained(Step(c), rs[1..], rest);
    }
  }

  function GroupsFirst(ids: seq<nat>): seq<Rpc> { if ids == [] then [] else [DeleteDeviceGroup(ids)] }

  lemma SentOff(c: Conf, content: Content)
    requires c.queue == [GetDeviceGroupIds, GetStreamIds] && c.pending == Some(content)
    ensures Runs(c, 2) == c.(pending := None, reconfigured := c.reconfigured + 1,
      queue := GroupsFirst(c.GroupIds()) + Reconfiguration(Ids(c.agent.streams), content)
               + [GetDeviceGroupIds, GetStreamIds])
  {
    hide Ids, Reconfiguration;
    var d := Step(c);
    assert d.queue == [GetStreamIds] + GroupsFirst(c.GroupIds());
    var e := Step(d);
    assert Runs(c, 2) == Runs(d, 1) == Runs(e, 0) == e;
  }

  // what each part does to the agent, sent or not

  lemma DoOne(a: Agent, r: Rpc)
    ensures AgentDoAll(a, [r]) == AgentDo(a, r)
  {
    assert [r][1..] == [];
  }

  lemma DoTwo(a: Agent, r: Rpc, t: Rpc)
    ensures AgentDoAll(a, [r, t]) == AgentDo(AgentDo(a, r), t)
  {
    assert [r, t][1..] == [t];
    DoOne(AgentDo(a, r), t);
  }

  lemma OldGroupsGo(a: Agent, ids: seq<nat>)
    requires SetOf(ids) == a.groups.Keys
    ensures AgentDoAll(a, GroupsFirst(ids)) == a.(groups := map[])
  {
    if ids == [] {
      assert a.groups.Keys == {};
      assert a.groups == map[];
    } else {
      DoOne(a, DeleteDeviceGroup(ids));
      DeletedGroups(a, ids);
      assert DeleteGroups(a, ids).groups == map[];
      DeleteGroupsOnly(a, ids);
    }
  }

  lemma {:induction false} DeleteGroupsOnly(a: Agent, ids: seq<nat>)
    ensures DeleteGroups(a, ids) == a.(groups := DeleteGroups(a, ids).groups)
  {
    if ids != [] { DeleteGroupsOnly(a, ids[..|ids| - 1]); }
  }

  lemma OldStreamsGo(a: Agent)
    requires Distinct(a.streams)
    ensures var b := AgentDoAll(a, DeletePart(Ids(a.streams)));
            b.streams == [] && b.groups == a.groups && SameSettings(a, b)
  {
    if a.streams != [] {
      DoOne(a, DeleteStream(Ids(a.streams)));
      DistinctIdList(a.streams);
      DeletedStreams(a, Ids(a.streams));
      var b := DeleteStreams(a, Ids(a.streams));
      NoIds(b.streams);
    }
  }

  lemma NewGroupsStored(a: Agent, groups: seq<Group>)
    requires a.groups == map[] && Distinct(groups)
    ensures var b := ModifyGroups(AddGroups(a, Ids(groups)), groups);
            b.groups == NormAll(ToMap(groups)) && b.streams == a.streams && SameSettings(a, b)
  {
    hide Norm, NormAll, ToMap, AddGroups, ModifyGroups, Distinct;
    AddedGroups(a, Ids(groups));
    IdsSet(groups);
    hide SetOf, IdSet;
    var b := AddGroups(a, Ids(groups));
    assert b.groups.Keys == IdSet(groups);
    ModifiedGroups(b, groups);
    MapKeys(groups);
    NormAllAt(ToMap(groups), 0);
    AllOver(b.groups, NormAll(ToMap(groups)));
  }

  lemma NothingAdded(a: Agent)
    ensures ModifyGroups(AddGroups(a, []), []) == a
  {
  }

  lemma NewGroupsCome(a: Agent, groups: seq<Group>)
    requires a.groups == map[] && Distinct(groups)
    ensures var rs := GroupPart(groups);
            && AgentDoAll(a, rs).groups == NormAll(ToMap(groups)) && AgentDoAll(a, rs).streams == a.streams
            && SameSettings(a, AgentDoAll(a, rs))
  {
    hide Norm, NormAll, ToMap, AddGroups, ModifyGroups, Distinct, Ids;
    NewGroupsStored(a, groups);
    if groups == [] {
      assert Ids(groups) == [];
      NothingAdded(a);
    } else {
      DoTwo(a, AddDeviceGroup(Ids(groups)), ModifyDeviceGroup(groups));
    }
  }

  lemma NewStreamsCome(a: Agent, streams: seq<Stream>)
    requires a.streams == [] && Distinct(streams)
    ensures var rs := StreamPart(streams);
            && Distinct(AgentDoAll(a, rs).streams)
            && ToMap(AgentDoAll(a, rs).streams) == ToMap(streams) && AgentDoAll(a, rs).groups == a.groups
            && SameSettings(a, AgentDoAll(a, rs))
  {
    if streams != [] {
      DoTwo(a, Rpc.AddStream(Ids(streams)), ModifyStream(streams));
      AddedStreams(a, Ids(streams));
      IdsSet(streams);
      var b := AddStreams(a, Ids(streams));
      assert IdSet(a.streams) == {};
      ModifiedStreams(b, streams);
      MapKeys(b.streams);
      MapKeys(streams);
      AllOver(ToMap(b.streams), ToMap(streams));
    }
  }

  lemma Rebuilt(a: Agent, streams: seq<Stream>)
    requires Distinct(a.streams) && Distinct(streams) && ToMap(a.streams) == ToMap(streams)
    ensures var b := AgentDoAll(a, [BuildPackets]);
            Carries(b, streams) && b.groups == a.groups && SameSettings(a, b)
  {
    hide Carries, ToMap, Distinct;
    DoOne(a, BuildPackets);
    Built(a, streams);
  }

  lemma DoParts(a: Agent, r0: seq<Rpc>, r1: seq<Rpc>, r2: seq<Rpc>, r3: seq<Rpc>, r4: seq<Rpc>)
    ensures AgentDoAll(a, r0 + (r1 + (r2 + (r3 + r4))))
         == AgentDoAll(AgentDoAll(AgentDoAll(AgentDoAll(AgentDoAll(a, r0), r1), r2), r3), r4)
  {
    hide AgentDoAll;
    DoConcat(a, r0, r1 + (r2 + (r3 + r4)));
    DoConcat(AgentDoAll(a, r0), r1, r2 + (r3 + r4));
    DoConcat(AgentDoAll(AgentDoAll(a, r0), r1), r2, r3 + r4);
    DoConcat(AgentDoAll(AgentDoAll(AgentDoAll(a, r0), r1), r2), r3, r4);
  }

  /** The transmit mode once the content is on the agent. */
  function ModeAfter(a: Agent, content: Content): bool {
    if content.changesPort && content.mode.Some? then content.mode.value else a.sequential
  }

  lemma PortSettings(a: Agent, content: Content)
    ensures AgentDoAll(a, if content.changesPort then [ModifyPort(content.mode)] else [])
         == a.(sequential := ModeAfter(a, content))
  {
    DoOne(a, ModifyPort(content.mode));
  }

  lemma Parts(r0: seq<Rpc>, ids: seq<nat>, content: Content)
    ensures r0 + Reconfiguration(ids, content)
         == r0 + (DeletePart(ids) + ((if content.changesPort then [ModifyPort(content.mode)] else [])
                  + (GroupPart(content.groups) + (StreamPart(content.streams) + [BuildPackets]))))
  {
    hide DeletePart, GroupPart, StreamPart;
  }

  /** The whole sequence leaves exactly the content on the agent. */
  lemma ReconfigurationLeaves(a: Agent, ids: seq<nat>, content: Content)
    requires SetOf(ids) == a.groups.Keys
    requires Distinct(a.streams) && Distinct(content.streams) && Distinct(content.groups)
    ensures var b := AgentDoAll(a, GroupsFirst(ids) + Reconfiguration(Ids(a.streams), content));
            && Carries(b, content.streams) && b.groups == NormAll(ToMap(content.groups))
            && b.sequential == ModeAfter(a, content)
  {
    var r0, r1 := GroupsFirst(ids), DeletePart(Ids(a.streams));
    var r2 := if content.changesPort then [ModifyPort(content.mode)] else [];
    var r3, r4 := GroupPart(content.groups), StreamPart(content.streams);
    Parts(r0, Ids(a.streams), content);
    DoParts(a, r0, r1, r2, r3, r4 + [BuildPackets]);
    var a0 := AgentDoAll(a, r0);
    OldGroupsGo(a, ids);
    var a1 := AgentDoAll(a0, r1);
    OldStreamsGo(a0);
    hide AgentDoAll, ToMap, NormAll, Norm, Distinct, Reconfiguration, GroupsFirst, Ids, IdSet, SetOf, Carries;
    PortSettings(a1, content);
    var a2 := AgentDoAll(a1, r2);
    var a3 := AgentDoAll(a2, r3);
    NewGroupsCome(a2, content.groups);
    NewStreamsCome(a3, content.streams);
    DoConcat(a3, r4, [BuildPackets]);
    Rebuilt(AgentDoAll(a3, r4), content.streams);
  }

  predicate AllOnly(rs: seq<Rpc>) { forall i :: 0 <= i < |rs| ==> AgentOnly(rs[i]) }

  lemma OnlyJoined(rs: seq<Rpc>, ts: seq<Rpc>)
    requires AllOnly(rs) && AllOnly(ts)
    ensures AllOnly(rs + ts)
  {
    hide AgentOnly;
  }

  lemma OnlyParts(ids: seq<nat>, content: Content)
    ensures AllOnly(GroupsFirst(ids)) && |GroupsFirst(ids)| <= 1
    ensures AllOnly(DeletePart(ids)) && |DeletePart(ids)| <= 1
    ensures AllOnly(if content.changesPort then [ModifyPort(content.mode)] else [])
    ensures AllOnly(GroupPart(content.groups)) && |GroupPart(content.groups)| <= 2
    ensures AllOnly(StreamPart(content.streams)) && |StreamPart(content.streams)| <= 2
    ensures AllOnly([BuildPackets])
  {
    hide Ids;
  }

  lemma AllAgentOnly(a: Agent, ids: seq<nat>, content: Content)
    ensures var rs := GroupsFirst(ids) + Reconfiguration(Ids(a.streams), content); |rs| <= 8 && AllOnly(rs)
  {
    OnlyParts(ids, content);
    OnlyParts(Ids(a.streams), content);
    hide AllOnly, GroupsFirst, DeletePart, GroupPart, StreamPart, Ids;
    var (r1, r2) := (DeletePart(Ids(a.streams)), if content.changesPort then [ModifyPort(content.mode)] else []);
    var (r3, r4) := (GroupPart(content.groups), StreamPart(content.streams));
    OnlyJoined(r1, r2);
    OnlyJoined(r1 + r2, r3);
    OnlyJoined(r1 + r2 + r3, r4);
    OnlyJoined(r1 + r2 + r3 + r4, [BuildPackets]);
    OnlyJoined(GroupsFirst(ids), Reconfiguration(Ids(a.streams), content));
  }

  /** Enough requests for any port. */
  const ENOUGH := 16

  /** The first requests on a port that the controller knows nothing of yet. */
  ghost predicate Opening(c: Conf) {
    && c.queue == [GetDeviceGroupIds, GetStreamIds]
    && Empty(c.client) && Distinct(c.agent.streams) && ListsKeys(c.order)
  }

  /** The content is sent and answered; nothing has been asked since but the two lists of ids. */
  lemma Replaces(c: Conf, content: Content) returns (n: nat)
    requires Opening(c) && c.pending == Some(content)
    requires Distinct(content.streams) && Distinct(content.groups)
    ensures n <= ENOUGH - 6
    ensures var d := Runs(c, n);
            && d == c.(agent := d.agent, pending := None, reconfigured := c.reconfigured + 1)
            && Carries(d.agent, content.streams) && d.agent.groups == NormAll(ToMap(content.groups))
            && d.agent.sequential == ModeAfter(c.agent, content)
  {
    var ids := c.GroupIds();
    assert SetOf(ids) == c.agent.groups.Keys;
    hide Runs, ToMap, NormAll, Distinct, Ids, Reconfiguration, GroupsFirst, AgentDoAll, AgentOnly, SetOf, ListsKeys,
         Empty;
    var rs := GroupsFirst(ids) + Reconfiguration(Ids(c.agent.streams), content);
    n := 2 + |rs|;
    SentOff(c, content);
    AllAgentOnly(c.agent, ids, content);
    Drained(Runs(c, 2), rs, [GetDeviceGroupIds, GetStreamIds]);
    ReconfigurationLeaves(c.agent, ids, content);
    RunsSum(c, 2, |rs|);
  }

  /** A port with content to send ends with that content on both sides, sent exactly once. */
  lemma Reconfigures(c: Conf, content: Content)
    requires Opening(c) && c.pending == Some(content)
    requires Distinct(content.streams) && Distinct(content.groups)
    ensures var d := Runs(c, ENOUGH);
            && Fetched(d) && d.reconfigured == c.reconfigured + 1
            && Carries(d.agent, content.streams) && d.agent.groups == NormAll(ToMap(content.groups))
            && d.agent.sequential
               == (if content.changesPort && content.mode.Some? then content.mode.value else c.agent.sequential)
  {
    hide Runs, ToMap, NormAll, Distinct, Fetched, ListsKeys, Empty;
    var n := Replaces(c, content);
    var d := Runs(c, n);
    Fetches(d);
    RunsSum(c, n, 6);
    FetchedIdle(Runs(d, 6));
    RunsIdle(Runs(d, 6), ENOUGH - (n + 6));
    RunsSum(c, n + 6, ENOUGH - (n + 6));
  }

  lemma FetchedIdle(c: Conf)
    requires Fetched(c)
    ensures c.queue == []
  {
  }

  /** A port with nothing to send is fetched as it is. */
  lemma LeavesAlone(c: Conf)
    requires Opening(c) && c.pending.None?
    ensures var d := Runs(c, ENOUGH);
            Fetched(d) && d.agent == c.agent && d.reconfigured == c.reconfigured
  {
    hide Runs, ToMap, Distinct, Ordered, SetOf, IdSet, ListsKeys;
    Fetches(c);
    RunsIdle(Runs(c, 6), 10);
    RunsSum(c, 6, 10);
  }

  // ------- what the session leaves -------

  /** The device groups are those of the session file exactly when none of these has a zero MAC
      step or an IPv6 configuration without a step. */
  lemma ContentKeptIff(c: Conf, content: Content)
    requires Opening(c) && c.pending == Some(content)
    requires Distinct(content.streams) && Distinct(content.groups)
    ensures Runs(c, ENOUGH).agent.groups == ToMap(content.groups) <==> AllKeep(content.groups)
  {
    hide Runs, NormAll, ToMap, AllKeep, Fetched, Opening;
    Reconfigures(c, content);
    AllKeepIff(content.groups);
  }

  /** A fetched port is one from which edits and applies can go on. */
  lemma FetchedIsSynced(c: Conf)
    requires Fetched(c) && Settled(c.agent.groups)
    ensures Synced(c.client, c.agent)
  {
    hide Norm, KeepsSteps, ToMap, SetOf, Ordered;
    var (p, a) := (c.client, c.agent);
    MapKeys(p.streams);
    MapKeys(a.streams);
    MapKeys(p.groups);
    forall i | 0 <= i < |p.groups|
      ensures p.groups[i].id in a.groups && a.groups[p.groups[i].id] == Norm(p.groups[i].value)
    {
      MapAt(p.groups, i);
      NormIff(a.groups[p.groups[i].id]);
    }
  }

  lemma StepSteady(c: Conf)
    requires Steady(c.agent)
    ensures Steady(Step(c).agent)
  {
    hide Steady;
    if c.queue != [] {
      var (a, r) := (c.agent, c.queue[0]);
      match r {
        case DeleteDeviceGroup(ids) => GroupsSteady(a, ids, []);
        case AddDeviceGroup(ids) => GroupsSteady(a, ids, []);
        case ModifyDeviceGroup(groups) => GroupsSteady(a, [], groups);
        case DeleteStream(ids) => StreamsSteady(a, ids, []);
        case AddStream(ids) => StreamsSteady(a, ids, []);
        case ModifyStream(streams) => StreamsSteady(a, [], streams);
        case BuildPackets => BuildSteady(a, a.sequential);
        case ModifyPort(mode) => BuildSteady(a, mode.Some? && mode.value);
        case _ =>
      }
      assert Step(c).agent == AgentDo(a, r);
    }
  }

  /** A steady agent, such as one without device groups, stays steady whatever is requested. */
  lemma {:induction false} RunsSteady(c: Conf, n: nat)
    requires Steady(c.agent)
    ensures Steady(Runs(c, n).agent)
    decreases n
  {
    hide Steady, Step;
    if n > 0 {
      StepSteady(c);
      RunsSteady(Step(c), n - 1);
    }
  }

  predicate DistinctContent(content: Option<Content>) {
    content.Some? ==> Distinct(content.value.streams) && Distinct(content.value.groups)
  }

  /** However a port is opened, controller and agent are in step afterwards, given a steady
      agent; after a reconfiguration, whatever the agent was. */
  lemma OpensInStep(c: Conf, al: Alloc)
    requires Opening(c)
    requires DistinctContent(c.pending)
    requires c.pending.Some? || Steady(c.agent)
    requires Below(Runs(c, ENOUGH).client, al)
    ensures var d := Runs(c, ENOUGH); InStep(Opened(d.client, al, d.agent))
  {
    hide Runs, ToMap, NormAll, KeepsSteps, Opening, Below;
    var d := Runs(c, ENOUGH);
    if c.pending.Some? {
      Reconfigures(c, c.pending.value);
      SettledIff(ToMap(c.pending.value.groups));
    } else {
      LeavesAlone(c);
    }
    FetchedIsSynced(d);
    SoundAtFirst(d.client, al);
  }

  /** From the opening of a session through any run of edits and applies to a last apply: the
      agent holds the streams of the controller and, up to `Norm`, its device groups. */
  lemma OpenedThenApplied(c: Conf, al: Alloc, steps: seq<Apply.Step>, order: seq<Group>)
    requires Opening(c) && DistinctContent(c.pending) && (c.pending.Some? || Steady(c.agent))
    requires Below(Runs(c, ENOUGH).client, al)
    requires var d := Runs(c, ENOUGH); EnabledRun(Opened(d.client, al, d.agent), steps)
    requires var d := Runs(c, ENOUGH); ModifiedList(RunPair(Opened(d.client, al, d.agent), steps).world.port, order)
    ensures var d := Runs(c, ENOUGH);
            var t := RunPair(Opened(d.client, al, d.agent), steps);
            var b := Requested(t.world.port, t.agent, order);
            && Carries(b, t.world.port.streams) && Distinct(t.world.port.groups)
            && b.groups == NormAll(ToMap(t.world.port.groups))
  {
    hide Runs, RunPair, EnabledRun, InStep, Opening, Steady, Below, Requested;
    OpensInStep(c, al);
    var d := Runs(c, ENOUGH);
    RunThenApply(Opened(d.client, al, d.agent), steps, order);
  }

  /** A port as its first edits find it. */
  function Opened(p: PortState, al: Alloc, a: Agent): Pair {
    Pair(World(p, al, IdSet(p.streams), IdSet(p.groups)), a)
  }

  lemma SoundAtFirst(p: PortState, al: Alloc)
    requires Distinct(p.streams) && Distinct(p.groups) && p.modified == {} && Below(p, al)
    ensures Sound(World(p, al, IdSet(p.streams), IdSet(p.groups)))
  {
  }
}
