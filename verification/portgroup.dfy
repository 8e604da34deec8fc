/**
 The PortGroup object while it opens a session: it asks for the ids on every port, decides
 which ports are to be reconfigured, and then each answer brings its handler into play.  The
 ports share one queue of requests; `View` is a port's own part of it all.
 */
module PortGroup {
  import opened Options
  import opened Entries
  import opened Agent
  import opened PortEdits
  import opened ClientPort
  import opened SessionOpen
  import Apply

  datatype Call = Call(port: nat, rpc: Rpc)

  function Calls(port: nat, rpcs: seq<Rpc>): (r: seq<Call>)
    ensures |r| == |rpcs|
  {
    if rpcs == [] then [] else [Call(port, rpcs[0])] + Calls(port, rpcs[1..])
  }

  /** The requests of one port, in order. */
  function Of(queue: seq<Call>, port: nat): seq<Rpc> {
    if queue == [] then []
    else (if queue[0].port == port then [queue[0].rpc] else []) + Of(queue[1..], port)
  }

  lemma {:induction false} OfConcat(q: seq<Call>, r: seq<Call>, port: nat)
    ensures Of(q + r, port) == Of(q, port) + Of(r, port)
  {
    hide Of;
    if q == [] {
      NoneOf(port);
      assert q + r == r;
      assert [] + Of(r, port) == Of(r, port);
    } else {
      OfConcat(q[1..], r, port);
      FirstOf(q, port);
      FirstOf(q + r, port);
      assert (q + r)[1..] == q[1..] + r && (q + r)[0] == q[0];
      if q[0].port == port {
        Regrouped([q[0].rpc], Of(q[1..], port), Of(r, port));
      }
    }
  }

  lemma Regrouped(a: seq<Rpc>, b: seq<Rpc>, c: seq<Rpc>)
    ensures a + (b + c) == (a + b) + c
  {
  }

  lemma {:induction false} OfCalls(port: nat, rpcs: seq<Rpc>, j: nat)
    ensures Of(Calls(port, rpcs), j) == if j == port then rpcs else []
    decreases |rpcs|
  {
    if rpcs != [] {
      assert Calls(port, rpcs)[1..] == Calls(port, rpcs[1..]);
      OfCalls(port, rpcs[1..], j);
    }
  }

  /** New requests are at the end of the port's own queue and of no other. */
  ghost predicate Issued(before: seq<Call>, queue: seq<Call>, port: nat, rpcs: seq<Rpc>) {
    forall j: nat :: Of(queue, j) == if j == port then Of(before, j) + rpcs else Of(before, j)
  }

  lemma Queued(q: seq<Call>, port: nat, rpcs: seq<Rpc>, j: nat)
    ensures Of(q + Calls(port, rpcs), j) == if j == port then Of(q, j) + rpcs else Of(q, j)
  {
    OfConcat(q, Calls(port, rpcs), j);
    OfCalls(port, rpcs, j);
    if j != port { assert Of(q, j) + [] == Of(q, j); }
  }

  class PortGroup {
    const counters: Counters
    const blank: GroupBody
    var mPorts: seq<Port>
    var atConnectPortConfig: seq<Option<Content>>
    var queue: seq<Call>          // made, not yet answered
    var agents: seq<Agent>        // the other side, port by port
    var orders: seq<KeyOrder>     // and how it lists its device groups
    var reconfigured: seq<nat>

    constructor (counters: Counters, blank: GroupBody)
      ensures Valid() && mPorts == [] && queue == [] && this.counters == counters && this.blank == blank
    {
      this.counters, this.blank := counters, blank;
      mPorts, atConnectPortConfig, queue, agents, orders, reconfigured := [], [], [], [], [], [];
    }

    ghost predicate Valid()
      reads this
    {
      && |atConnectPortConfig| == |agents| == |orders| == |reconfigured| == |mPorts|
      && (forall i, j :: 0 <= i < j < |mPorts| ==> mPorts[i] != mPorts[j])
      && (forall i :: 0 <= i < |queue| ==> queue[i].port < |mPorts|)
    }

    ghost function View(j: nat): Conf
      requires Valid() && j < |mPorts|
      reads this, mPorts
    {
      Conf(agents[j], mPorts[j].State(), blank, orders[j], atConnectPortConfig[j], Of(queue, j), reconfigured[j])
    }

    method Issue(port: nat, rpcs: seq<Rpc>)
      requires Valid() && port < |mPorts|
      modifies this`queue
      ensures Valid()
      ensures Issued(old(queue), queue, port, rpcs)
    {
      var i := 0;
      assert rpcs[..0] == [];
      while i < |rpcs|
        invariant i <= |rpcs| && Valid()
        invariant queue == old(queue) + Calls(port, rpcs[..i])
      {
        CallsSnoc(port, rpcs[..i], rpcs[i]);
        assert rpcs[..i] + [rpcs[i]] == rpcs[..i + 1];
        queue := queue + [Call(port, rpcs[i])];
        i := i + 1;
      }
      assert rpcs[..|rpcs|] == rpcs;
      hide Of, Calls;
      forall j: nat ensures Of(queue, j) == if j == port then Of(old(queue), j) + rpcs else Of(old(queue), j) {
        Queued(old(queue), port, rpcs, j);
      }
    }

    /** Every id on a port is below the allocator. */
    ghost predicate IdsBelow()
      reads this, mPorts, counters
    {
      forall j :: 0 <= j < |mPorts| ==> Below(mPorts[j].State(), counters.Next())
    }

    /** Only port `p` has moved on; `before` are the views of all ports. */
    ghost predicate Only(p: nat, before: seq<Conf>, c: Conf)
      requires Valid()
      reads this, mPorts
    {
      && |before| == |mPorts| && p < |mPorts| && View(p) == c
      && forall j :: 0 <= j < |mPorts| && j != p ==> View(j) == before[j]
    }

    ghost function Views(): (vs: seq<Conf>)
      requires Valid()
      reads this, mPorts
      ensures |vs| == |mPorts| && forall j :: 0 <= j < |vs| ==> vs[j] == View(j)
    {
      seq(|mPorts|, j requires Valid() && 0 <= j < |mPorts| reads this, mPorts => View(j))
    }

    method GetDeviceInfo(p: nat)
      requires Valid() && p < |mPorts|
      modifies this`queue
      ensures Valid() && Issued(old(queue), queue, p, DeviceInfo())
    {
      Issue(p, [GetDeviceList, GetDeviceNeighbors]);
    }

    predicate Later(al: Alloc)
      reads counters
    {
      counters.allocStreamId <= al.stream && counters.allocDeviceGroupId <= al.group
    }

    /** Ports stay below when an id comes to one of them and the allocator moves past it. */
    lemma InsertedIdsBelow(p: nat, id: nat)
      requires IdsBelow() && p < |mPorts|
      ensures forall al: Alloc, j :: 0 <= j < |mPorts| && Later(al) ==> Below(mPorts[j].State(), al)
      ensures var (s, al) := (mPorts[p].State(), counters.Next());
              && Below(InsertStream(s, id), al.(stream := Max(al.stream, id + 1)))
              && Below(InsertGroup(s, id, blank),
                   if Find(s.groups, id) < |s.groups| then al else al.(group := Max(al.group, id + 1)))
    {
      hide Below;
      forall al: Alloc, j | 0 <= j < |mPorts| && Later(al)
        ensures Below(mPorts[j].State(), al)
      {
        BelowGrows(mPorts[j].State(), counters.Next(), al);
      }
      InsertedBelow(mPorts[p].State(), counters.Next(), id, blank);
    }

    method InsertGroupIds(p: nat, ids: seq<nat>)
      requires Valid() && p < |mPorts|
      modifies mPorts[p], counters
      ensures mPorts[p].State() == InsertGroups(old(mPorts[p].State()), ids, blank)
      ensures old(IdsBelow()) ==> IdsBelow()
    {
      for i := 0 to |ids|
        invariant mPorts[p].State() == InsertGroups(old(mPorts[p].State()), ids[..i], blank)
        invariant old(IdsBelow()) ==> IdsBelow()
      {
        assert ids[..i + 1][..i] == ids[..i];
        if old(IdsBelow()) { InsertedIdsBelow(p, ids[i]); }
        var _ := mPorts[p].InsertDeviceGroup(counters, ids[i], blank);
      }
      assert ids[..|ids|] == ids;
    }

    method ProcessDeviceGroupIdList(p: nat, ids: seq<nat>)
      requires Valid() && p < |mPorts|
      modifies this`queue, mPorts[p], counters
      ensures Valid() && Only(p, old(Views()), OnGroupIds(old(View(p)), ids))
      ensures old(IdsBelow()) ==> IdsBelow()
    {
      hide InsertGroups, Ids, Of, Below;
      if atConnectPortConfig[p].Some? {
        Issue(p, if ids == [] then [] else [DeleteDeviceGroup(ids)]);
      } else {
        InsertGroupIds(p, ids);
        if |mPorts[p].deviceGroups| == 0 {
          GetDeviceInfo(p);
        } else {
          Issue(p, [GetDeviceGroupConfig(Ids(mPorts[p].deviceGroups))]);
        }
      }
    }

    method InsertStreamIds(p: nat, ids: seq<nat>)
      requires Valid() && p < |mPorts|
      modifies mPorts[p], counters
      ensures mPorts[p].State() == InsertStreams(old(mPorts[p].State()), ids)
      ensures old(IdsBelow()) ==> IdsBelow()
    {
      for i := 0 to |ids|
        invariant mPorts[p].State() == InsertStreams(old(mPorts[p].State()), ids[..i])
        invariant old(IdsBelow()) ==> IdsBelow()
      {
        assert ids[..i + 1][..i] == ids[..i];
        if old(IdsBelow()) { InsertedIdsBelow(p, ids[i]); }
        mPorts[p].InsertStream(counters, ids[i]);
      }
      assert ids[..|ids|] == ids;
    }

    /** The requests of the reconfiguration, each left out when it has nothing to say. */
    method IssueReconfiguration(p: nat, ids: seq<nat>, content: Content)
      requires Valid() && p < |mPorts|
      modifies this`queue
      ensures Valid()
      ensures Issued(old(queue), queue, p, Reconfiguration(ids, content) + [GetDeviceGroupIds, GetStreamIds])
    {
      hide Ids, Of;
      var rpcs: seq<Rpc> := [];
      if ids != [] { rpcs := rpcs + [DeleteStream(ids)]; }
      if content.changesPort { rpcs := rpcs + [ModifyPort(content.mode)]; }
      if content.groups != [] {
        rpcs := rpcs + [AddDeviceGroup(Ids(content.groups)), ModifyDeviceGroup(content.groups)];
      }
      if content.streams != [] {
        rpcs := rpcs + [Rpc.AddStream(Ids(content.streams)), ModifyStream(content.streams)];
      }
      rpcs := rpcs + [BuildPackets];
      assert rpcs == Reconfiguration(ids, content);
      Issue(p, rpcs + [GetDeviceGroupIds, GetStreamIds]);
    }

    method ProcessStreamIdList(p: nat, ids: seq<nat>)
      requires Valid() && p < |mPorts|
      modifies this`queue, this`atConnectPortConfig, this`reconfigured, mPorts[p], counters
      ensures Valid() && Only(p, old(Views()), OnStreamIds(old(View(p)), ids))
      ensures old(IdsBelow()) ==> IdsBelow()
    {
      hide InsertStreams, Ids, Reconfiguration, SyncComplete, Of, Below;
      if atConnectPortConfig[p].Some? {
        var content := atConnectPortConfig[p].value;
        IssueReconfiguration(p, ids, content);
        atConnectPortConfig := atConnectPortConfig[p := None];
        reconfigured := reconfigured[p := reconfigured[p] + 1];
      } else {
        SyncStreams(p, ids);
        GetStreamConfigList(p);
      }
    }

    /** The streams are inserted, and with them the port is synchronised. */
    method SyncStreams(p: nat, ids: seq<nat>)
      requires Valid() && p < |mPorts|
      modifies mPorts[p], counters
      ensures mPorts[p].State() == SyncComplete(InsertStreams(old(mPorts[p].State()), ids))
      ensures old(IdsBelow()) ==> IdsBelow()
    {
      InsertStreamIds(p, ids);
      mPorts[p].WhenSyncComplete();
    }

    method GetStreamConfigList(p: nat)
      requires Valid() && p < |mPorts|
      modifies this`queue
      ensures Valid()
      ensures Issued(old(queue), queue, p,
                     if mPorts[p].mStreams == [] then [] else [GetStreamConfig(Ids(mPorts[p].mStreams))])
    {
      hide Ids, Of;
      if |mPorts[p].mStreams| == 0 { return; }
      Issue(p, [GetStreamConfig(Ids(mPorts[p].mStreams))]);
    }

    method ProcessDeviceGroupConfigList(p: nat, list: seq<Group>)
      requires Valid() && p < |mPorts|
      modifies this`queue, mPorts[p]
      ensures Valid()
      ensures Only(p, old(Views()), old(View(p)).(client := UpdateGroups(old(View(p)).client, list),
                                                  queue := old(View(p)).queue + DeviceInfo()))
      ensures old(IdsBelow()) ==> IdsBelow()
    {
      UpdateGroupConfigs(p, list);
      hide UpdateGroups;
      GetDeviceInfo(p);
    }

    method UpdateGroupConfigs(p: nat, list: seq<Group>)
      requires Valid() && p < |mPorts|
      modifies mPorts[p]
      ensures mPorts[p].State() == UpdateGroups(old(mPorts[p].State()), list)
      ensures old(IdsBelow()) ==> IdsBelow()
    {
      for i := 0 to |list|
        invariant mPorts[p].State() == UpdateGroups(old(mPorts[p].State()), list[..i])
        invariant old(IdsBelow()) ==> IdsBelow()
      {
        if old(IdsBelow()) { UpdatedBelow(mPorts[p].State(), counters.Next(), Entry(0, DEFAULT_STREAM), list[i]); }
        assert list[..i + 1][..i] == list[..i];
        var _ := mPorts[p].UpdateDeviceGroup(list[i]);
      }
      assert list[..|list|] == list;
    }

    method ProcessStreamConfigList(p: nat, list: seq<Stream>)
      requires Valid() && p < |mPorts|
      modifies mPorts[p]
      ensures Valid()
      ensures Only(p, old(Views()), old(View(p)).(client := UpdateStreams(old(View(p)).client, list)))
      ensures old(IdsBelow()) ==> IdsBelow()
    {
      for i := 0 to |list|
        invariant mPorts[p].State() == UpdateStreams(old(mPorts[p].State()), list[..i])
        invariant old(IdsBelow()) ==> IdsBelow()
      {
        if old(IdsBelow()) { UpdatedBelow(mPorts[p].State(), counters.Next(), list[i], Entry(0, blank)); }
        assert list[..i + 1][..i] == list[..i];
        var _ := mPorts[p].UpdateStream(list[i]);
      }
      assert list[..|list|] == list;
    }
  
    /** The first request goes to the agent of its port. */
    method Take() returns (p: nat, rpc: Rpc)
      requires Valid() && queue != []
      modifies this`queue, this`agents
      ensures Valid() && p < |mPorts| && old(Of(queue, p)) != [] && rpc == old(Of(queue, p))[0]
      ensures Only(p, old(Views()),
                   old(View(p)).(agent := AgentDo(old(agents[p]), rpc), queue := old(View(p)).queue[1..]))
    {
      hide AgentDo, Of;
      p := queue[0].port;
      rpc := queue[0].rpc;
      forall j | 0 <= j < |mPorts|
        ensures Of(queue, j) == if j == p then [rpc] + Of(queue[1..], j) else Of(queue[1..], j)
      {
        FirstOf(queue, j);
      }
      queue := queue[1..];
      agents := agents[p := AgentDo(agents[p], rpc)];
    }

    /** Its answer brings a handler into play. */
    method Handle(p: nat, rpc: Rpc)
      requires Valid() && p < |mPorts|
      modifies this`queue, this`atConnectPortConfig, this`reconfigured, mPorts[p], counters
      ensures Valid() && Only(p, old(Views()), Replied(old(View(p)), rpc))
      ensures old(IdsBelow()) ==> IdsBelow()
    {
      hide Ids, GroupConfigs, StreamConfigs, OnGroupIds, OnStreamIds, UpdateGroups, UpdateStreams, Of, Below;
      match rpc {
        case GetDeviceGroupIds => ProcessDeviceGroupIdList(p, orders[p](reconfigured[p], agents[p].groups.Keys));
        case GetStreamIds => ProcessStreamIdList(p, Ids(agents[p].streams));
        case GetDeviceGroupConfig(ids) => ProcessDeviceGroupConfigList(p, GroupConfigs(agents[p], ids));
        case GetStreamConfig(ids) => ProcessStreamConfigList(p, StreamConfigs(agents[p], ids));
        case _ =>
      }
    }

    method Answer() returns (p: nat)
      requires Valid() && queue != []
      modifies this`queue, this`agents, this`atConnectPortConfig, this`reconfigured, mPorts, counters
      ensures Valid() && p < |mPorts| && old(Of(queue, p)) != []
      ensures Only(p, old(Views()), Step(old(View(p))))
      ensures old(IdsBelow()) ==> IdsBelow()
    {
      hide AgentDo, Of, Below;
      var rpc;
      p, rpc := Take();
      assert Step(old(View(p))) == Replied(View(p), rpc);
      hide Step, Replied;
      Handle(p, rpc);
    }

    /** Port `j` has taken `taken[j]` steps from `start[j]`. */
    ghost predicate Taken(start: seq<Conf>, taken: seq<nat>)
      requires Valid()
      reads this, mPorts
    {
      && |start| == |taken| == |mPorts|
      && forall j :: 0 <= j < |mPorts| ==> taken[j] <= ENOUGH && View(j) == Runs(start[j], taken[j])
    }

    method AnswerOne(ghost start: seq<Conf>, ghost taken: seq<nat>) returns (ghost next: seq<nat>)
      requires Valid() && queue != [] && Taken(start, taken)
      requires forall j :: 0 <= j < |mPorts| ==> Runs(start[j], ENOUGH).queue == []
      modifies this`queue, this`agents, this`atConnectPortConfig, this`reconfigured, mPorts, counters
      ensures Valid() && Taken(start, next) && Left(next) < Left(taken)
      ensures old(IdsBelow()) ==> IdsBelow()
    {
      hide Step, Runs, Of, Left, Below;
      ghost var before := Views();
      var p := Answer();
      RunsOneMore(start[p], taken[p]);
      LeftDrops(taken, p);
      next := taken[p := taken[p] + 1];
    }

    /** Answers come until no request is left, whichever port each is for; every port ends
        where its own part of the exchange would have ended by itself. */
    method AnswerAll()
      requires Valid() && forall j :: 0 <= j < |mPorts| ==> Runs(View(j), ENOUGH).queue == []
      modifies this`queue, this`agents, this`atConnectPortConfig, this`reconfigured, mPorts, counters
      ensures Valid() && queue == []
      ensures forall j :: 0 <= j < |mPorts| ==> View(j) == Runs(old(View(j)), ENOUGH)
      ensures old(IdsBelow()) ==> IdsBelow()
    {
      hide Step, Runs, Of, Left, Below;
      ghost var start := Views();
      ghost var taken: seq<nat> := seq(|mPorts|, _ => 0);
      forall j | 0 <= j < |mPorts| ensures Runs(start[j], 0) == start[j] { RunsNone(start[j]); }
      while queue != []
        invariant Valid() && Taken(start, taken)
        invariant old(IdsBelow()) ==> IdsBelow()
        decreases Left(taken)
      {
        taken := AnswerOne(start, taken);
      }
      forall j | 0 <= j < |mPorts| ensures View(j) == Runs(start[j], ENOUGH) {
        NoneOf(j);
        RunsEnd(start[j], taken[j]);
      }
    }
  
    /** Device group ids are asked for on every port, then stream ids: the reconfiguration
        relies on this order. */
    method AskForAll(rpc: Rpc)
      requires Valid()
      modifies this`queue
      ensures Valid()
      ensures forall j :: 0 <= j < |mPorts| ==> Of(queue, j) == old(Of(queue, j)) + [rpc]
    {
      for p := 0 to |mPorts|
        invariant Valid()
        invariant forall j :: 0 <= j < |mPorts| ==>
          Of(queue, j) == if j < p then old(Of(queue, j)) + [rpc] else old(Of(queue, j))
      {
        Issue(p, [rpc]);
      }
    }

    /** The part of processPortConfigList that decides which ports get new content. */
    method ChooseContents(names: seq<string>, users: seq<string>, myself: string, contents: seq<Named>)
      requires Valid() && |names| == |users| == |mPorts|
      requires forall j :: 0 <= j < |mPorts| ==> atConnectPortConfig[j] == None
      modifies this`atConnectPortConfig
      ensures Valid() && atConnectPortConfig == Chosen(names, users, myself, contents)
    {
      for i := 0 to |contents|
        invariant Valid() && atConnectPortConfig == Chosen(names, users, myself, contents[..i])
      {
        assert contents[..i + 1][..i] == contents[..i];
        var j := 0;
        while j < |mPorts|
          invariant j <= |mPorts| && Valid()
          invariant atConnectPortConfig == Chosen(names, users, myself, contents[..i])
          invariant Target(names, users, myself, contents[i].name, 0) == Target(names, users, myself,
              contents[i].name, j)
        {
          if names[j] == contents[i].name {
            if users[j] != "" && users[j] != myself {
              j := j + 1;
              continue;
            }
            atConnectPortConfig := atConnectPortConfig[j := Some(contents[i].content)];
            break;
          }
          j := j + 1;
        }
      }
      assert contents[..|contents|] == contents;
    }

    /** Everything up to the first answer. */
    method StartOpening(names: seq<string>, users: seq<string>, myself: string, contents: Option<seq<Named>>)
      requires Valid() && |names| == |users| == |mPorts| && queue == []
      requires forall j :: 0 <= j < |mPorts| ==>
        && atConnectPortConfig[j] == None
        && Empty(mPorts[j].State()) && Distinct(agents[j].streams) && ListsKeys(orders[j])
      requires contents.Some? ==> AllDistinct(contents.value)
      modifies this`queue, this`atConnectPortConfig
      ensures Valid() && forall j :: 0 <= j < |mPorts| ==> Opening(View(j)) && DistinctContent(View(j).pending)
      ensures forall j :: 0 <= j < |mPorts| ==>
        View(j).pending == if contents.Some? then Chosen(names, users, myself, contents.value)[j] else None
    {
      hide Of, Distinct, Empty, Target, Chosen, ListsKeys;
      forall j | 0 <= j < |mPorts| ensures Of(queue, j) == [] { NoneOf(j); }
      if |mPorts| > 0 {
        AskForAll(GetDeviceGroupIds);
        AskForAll(GetStreamIds);
      }
      if contents.Some? && |mPorts| > 0 {
        ChooseContents(names, users, myself, contents.value);
      }
      forall j | 0 <= j < |mPorts| ensures DistinctContent(View(j).pending) {
        if contents.Some? { ChosenFrom(names, users, myself, contents.value, j); }
      }
    }

    /** And from there to the last. */
    method AnswerOpening()
      requires Valid()
      requires forall j :: 0 <= j < |mPorts| ==>
        Opening(View(j)) && DistinctContent(View(j).pending) && reconfigured[j] == 0
      modifies this`queue, this`agents, this`atConnectPortConfig, this`reconfigured, mPorts, counters
      ensures Valid() && queue == []
      ensures forall j :: 0 <= j < |mPorts| ==> Ended(View(j), old(View(j)).agent, old(View(j)).pending)
      ensures old(IdsBelow()) ==> forall j :: 0 <= j < |mPorts| && Steady(old(agents[j])) ==>
        Apply.InStep(Opened(mPorts[j].State(), counters.Next(), agents[j]))
    {
      hide Of, Runs, Ended, Steady, Apply.InStep, Below, Opening, DistinctContent;
      ghost var start := Views();
      forall j | 0 <= j < |mPorts|
        ensures Runs(View(j), ENOUGH).queue == []
        ensures Ended(Runs(View(j), ENOUGH), start[j].agent, start[j].pending)
      {
        Opens(View(j));
      }
      AnswerAll();
      if old(IdsBelow()) {
        forall j | 0 <= j < |mPorts| && Steady(old(agents[j]))
          ensures Apply.InStep(Opened(mPorts[j].State(), counters.Next(), agents[j]))
        {
          OpensInStep(start[j], counters.Next());
        }
      }
    }

    /** Connecting with a session to open: the port configurations have come, and from there
        on to the last answer.  Every reserved or unnamed port is fetched as it is; every other
        ends with the session's streams and, up to `Norm`, its device groups on both sides.
        With agents that are steady, as they stay from the start, every port is one from which
        any run of edits and applies keeps controller and agent in step. */
    method OpenSession(names: seq<string>, users: seq<string>, myself: string, contents: Option<seq<Named>>)
      requires Valid() && |names| == |users| == |mPorts| && queue == []
      requires forall j :: 0 <= j < |mPorts| ==>
        && atConnectPortConfig[j] == None && reconfigured[j] == 0
        && Empty(mPorts[j].State()) && Distinct(agents[j].streams) && ListsKeys(orders[j])
      requires contents.Some? ==> AllDistinct(contents.value)
      modifies this`queue, this`agents, this`atConnectPortConfig, this`reconfigured, mPorts, counters
      ensures Valid() && queue == []
      ensures forall j :: 0 <= j < |mPorts| ==>
        Ended(View(j), old(agents[j]),
              if contents.Some? then Chosen(names, users, myself, contents.value)[j] else None)
      ensures forall j :: 0 <= j < |mPorts| && Steady(old(agents[j])) ==>
        Apply.InStep(Opened(mPorts[j].State(), counters.Next(), agents[j]))
    {
      forall j | 0 <= j < |mPorts| ensures Below(mPorts[j].State(), counters.Next()) { NoIdsBelow(mPorts[j].State()); }
      hide Of, Runs, Ended, Distinct, Empty, Target, Chosen, Steady, Apply.InStep, ListsKeys, Below, Opening,
           DistinctContent;
      StartOpening(names, users, myself, contents);
      AnswerOpening();
    }
  }

  lemma NoIdsBelow(p: PortState)
    requires Empty(p)
    ensures forall al :: Below(p, al)
  {
  }

  datatype Named = Named(name: string, content: Content)

  predicate AllDistinct(contents: seq<Named>) {
    forall i :: 0 <= i < |contents| ==>
      Distinct(contents[i].content.streams) && Distinct(contents[i].content.groups)
  }

  /** Reserved by someone else. */
  predicate Reserved(user: string, myself: string) { user != "" && user != myself }

  /** The first port from `j` on that has the name and is not reserved by someone else. */
  function Target(names: seq<string>, users: seq<string>, myself: string, name: string, j: nat): (k: nat)
    requires |names| == |users| && j <= |names|
    ensures j <= k <= |names|
    ensures k < |names| ==> names[k] == name && !Reserved(users[k], myself)
    ensures forall i :: j <= i < k ==> names[i] != name || Reserved(users[i], myself)
    decreases |names| - j
  {
    if j == |names| || (names[j] == name && !Reserved(users[j], myself)) then j
    else Target(names, users, myself, name, j + 1)
  }

  /** The content for each port: of several for one port, the last. */
  function Chosen(names: seq<string>, users: seq<string>, myself: string,
      contents: seq<Named>): (r: seq<Option<Content>>)
    requires |names| == |users|
    ensures |r| == |names|
  {
    if contents == [] then seq(|names|, _ => None)
    else
      var n := |contents| - 1;
      var r := Chosen(names, users, myself, contents[..n]);
      var j := Target(names, users, myself, contents[n].name, 0);
      if j < |names| then r[j := Some(contents[n].content)] else r
  }

  /** The first port that has the content's name and is not reserved by somebody else. */
  predicate Fits(names: seq<string>, users: seq<string>, myself: string, name: string, j: nat)
    requires |names| == |users| && j < |names|
  {
    && names[j] == name && (users[j] == "" || users[j] == myself)
    && forall k :: 0 <= k < j && names[k] == name ==> users[k] != "" && users[k] != myself
  }

  lemma FitsTarget(names: seq<string>, users: seq<string>, myself: string, name: string, j: nat)
    requires |names| == |users| && j < |names|
    ensures Fits(names, users, myself, name, j) <==> Target(names, users, myself, name, 0) == j
  {
  }

  /** A port gets the last content it fits, and none if it fits none: never one for a port that
      somebody else has reserved. */
  lemma {:induction false} ChosenFrom(names: seq<string>, users: seq<string>, myself: string, contents: seq<Named>,
      j: nat)
    requires |names| == |users| && j < |names|
    ensures var c := Chosen(names, users, myself, contents)[j];
            && (c.None? ==>
                  forall i :: 0 <= i < |contents| ==> !Fits(names, users, myself, contents[i].name, j))
            && (c.Some? ==>
                  exists i :: 0 <= i < |contents| && Fits(names, users, myself, contents[i].name, j)
                    && contents[i].content == c.value
                    && forall l :: i < l < |contents| ==> !Fits(names, users, myself, contents[l].name, j))
            && (AllDistinct(contents) && c.Some? ==> Distinct(c.value.streams) && Distinct(c.value.groups))
  {
    if contents != [] {
      var n := |contents| - 1;
      ChosenFrom(names, users, myself, contents[..n], j);
      FitsTarget(names, users, myself, contents[n].name, j);
      hide Fits, Target, Distinct;
      assert forall i :: 0 <= i < n ==> contents[..n][i] == contents[i];
    }
  }

  /** How a port ends: fetched; with the content on the agent and sent exactly once if there
      was any; with the agent as it was, and nothing sent, if there was none. */
  ghost predicate Ended(d: Conf, before: Agent, pending: Option<Content>) {
    && Fetched(d)
    && match pending
       case None => d.agent == before && d.reconfigured == 0
       case Some(content) =>
         && d.reconfigured == 1
         && Carries(d.agent, content.streams) && Distinct(content.groups)
         && d.agent.groups == NormAll(ToMap(content.groups))
         && d.agent.sequential
            == (if content.changesPort && content.mode.Some? then content.mode.value else before.sequential)
  }

  lemma Opens(c: Conf)
    requires Opening(c) && c.reconfigured == 0
    requires DistinctContent(c.pending)
    ensures Ended(Runs(c, ENOUGH), c.agent, c.pending) && Runs(c, ENOUGH).queue == []
  {
    hide Runs, ToMap, Distinct, Opening, NormAll;
    match c.pending
    case None => LeavesAlone(c);
    case Some(content) => Reconfigures(c, content);
  }

  lemma {:induction false} CallsSnoc(port: nat, rpcs: seq<Rpc>, r: Rpc)
    ensures Calls(port, rpcs + [r]) == Calls(port, rpcs) + [Call(port, r)]
    decreases |rpcs|
  {
    if rpcs == [] {
      assert [r][1..] == [];
    } else {
      assert (rpcs + [r])[1..] == rpcs[1..] + [r];
      CallsSnoc(port, rpcs[1..], r);
    }
  }

  lemma NoneOf(j: nat)
    ensures Of([], j) == []
  {
  }

  lemma FirstOf(q: seq<Call>, j: nat)
    requires q != []
    ensures Of(q, j) == if j == q[0].port then [q[0].rpc] + Of(q[1..], j) else Of(q[1..], j)
  {
  }

  lemma RunsNone(c: Conf)
    ensures Runs(c, 0) == c
  {
  }

  lemma RunsEnd(c: Conf, n: nat)
    requires n <= ENOUGH && Runs(c, n).queue == []
    ensures Runs(c, ENOUGH) == Runs(c, n)
  {
    RunsIdle(Runs(c, n), ENOUGH - n);
    RunsSum(c, n, ENOUGH - n);
  }

  /** A port with a request left has not taken all its steps. */
  lemma RunsOneMore(c: Conf, n: nat)
    requires n <= ENOUGH && Runs(c, ENOUGH).queue == [] && Runs(c, n).queue != []
    ensures n < ENOUGH && Runs(c, n + 1) == Step(Runs(c, n))
  {
    hide Step;
    RunsSum(c, n, 1);
    assert Runs(Runs(c, n), 1) == Runs(Step(Runs(c, n)), 0);
  }

  /** The steps the ports have left together. */
  ghost function Left(taken: seq<nat>): nat {
    if taken == [] then 0 else Left(taken[..|taken| - 1]) + if taken[|taken| - 1] <= ENOUGH
        then ENOUGH - taken[|taken| - 1] else 0
  }

  lemma {:induction false} LeftDrops(taken: seq<nat>, p: nat)
    requires p < |taken| && taken[p] < ENOUGH
    ensures Left(taken[p := taken[p] + 1]) < Left(taken)
  {
    var n := |taken| - 1;
    var next := taken[p := taken[p] + 1];
    if p == n {
      assert next[..n] == taken[..n];
    } else {
      LeftDrops(taken[..n], p);
      assert next[..n] == taken[..n][p := taken[p] + 1];
    }
  }
}
