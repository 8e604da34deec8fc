/**
 The Port object of the controller, method by method; `State` reads its lists as one value
 and each method says which edit of PortEdits it performs.
 */
module ClientPort {
  import opened Options
  import opened Entries
  import opened Agent
  import opened PortEdits
  import opened Apply

  /** The static counters of the class, shared by all ports. */
  class Counters {
    var allocStreamId: nat
    var allocDeviceGroupId: nat

    constructor ()
      ensures allocStreamId == 0 && allocDeviceGroupId == 1
    {
      allocStreamId, allocDeviceGroupId := 0, 1;
    }

    function Next(): Alloc
      reads this
    {
      Alloc(allocStreamId, allocDeviceGroupId)
    }
  }

  class Port {
    var mStreams: seq<Stream>
    var mLastSyncStreamList: seq<nat>
    var deviceGroups: seq<Group>
    var lastSyncDeviceGroupList: seq<nat>
    var modifiedDeviceGroupList: set<nat>
    var dirty: bool

    function State(): PortState
      reads this
    {
      PortState(mStreams, mLastSyncStreamList, deviceGroups, lastSyncDeviceGroupList, modifiedDeviceGroupList, dirty)
    }

    constructor ()
      ensures State() == PortState([], [], [], [], {}, false)
    {
      mStreams, mLastSyncStreamList := [], [];
      deviceGroups, lastSyncDeviceGroupList := [], [];
      modifiedDeviceGroupList, dirty := {}, false;
    }

    // ------- streams -------

    method UpdateStreamOrdinalsFromIndex()
      modifies this`mStreams
      ensures mStreams == Renumbered(old(mStreams))
    {
      for i := 0 to |mStreams|
        invariant |mStreams| == |old(mStreams)|
        invariant forall k :: 0 <= k < |mStreams| ==>
          mStreams[k] == if k < i then Renumbered(old(mStreams))[k] else old(mStreams)[k]
      {
        var s := mStreams[i];
        mStreams := mStreams[i := Entry(s.id, s.value.(ordinal := i))];
      }
    }

    method NewStreamAt(c: Counters, index: nat, stream: Option<StreamBody>) returns (ok: bool)
      modifies this, c`allocStreamId
      ensures ok == (index <= |old(mStreams)|)
      ensures if ok
              then State() == PortEdits.NewStreamAt(old(State()), old(c.allocStreamId), index, stream)
                   && c.allocStreamId == old(c.allocStreamId) + 1
              else State() == old(State()) && c.allocStreamId == old(c.allocStreamId)
    {
      var s := DEFAULT_STREAM;
      if index > |mStreams| { return false; }
      if stream.Some? { s := stream.value; }
      var id := c.allocStreamId;
      c.allocStreamId := c.allocStreamId + 1;
      mStreams := InsertedAt(mStreams, index, Entry(id, s));
      UpdateStreamOrdinalsFromIndex();
      dirty := true;
      ok := true;
    }

    method DeleteStreamAt(index: nat) returns (ok: bool)
      modifies this
      ensures ok == (index < |old(mStreams)|)
      ensures State() == if ok then PortEdits.DeleteStreamAt(old(State()), index) else old(State())
    {
      if index >= |mStreams| { return false; }
      mStreams := Without(mStreams, index);
      UpdateStreamOrdinalsFromIndex();
      dirty := true;
      ok := true;
    }

    method InsertStream(c: Counters, streamId: nat)
      modifies this`mStreams, c`allocStreamId
      ensures State() == PortEdits.InsertStream(old(State()), streamId)
      ensures c.allocStreamId == Max(old(c.allocStreamId), streamId + 1)
    {
      mStreams := mStreams + [Entry(streamId, DEFAULT_STREAM)];
      if c.allocStreamId <= streamId {
        c.allocStreamId := streamId + 1;
      }
    }

    /** The first stream with the id, searched from the front. */
    method IndexOfStream(streamId: nat) returns (i: nat)
      ensures i == Find(mStreams, streamId)
    {
      i := 0;
      while i < |mStreams| && mStreams[i].id != streamId
        invariant i <= |mStreams|
        invariant Find(mStreams, streamId) == i + Find(mStreams[i..], streamId)
      {
        assert mStreams[i..][1..] == mStreams[i + 1..];
        i := i + 1;
      }
    }

    method UpdateStream(stream: Stream) returns (ok: bool)
      modifies this`mStreams
      ensures ok == (Find(old(mStreams), stream.id) < |old(mStreams)|)
      ensures State() == PortEdits.UpdateStream(old(State()), stream)
    {
      var i := IndexOfStream(stream.id);
      if i == |mStreams| { return false; }
      mStreams := mStreams[i := stream];
      mStreams := Sorted(mStreams);
      ok := true;
    }

    /** The copies go to the end, each source once a round. */
    method DuplicateStreams(c: Counters, list: seq<nat>, count: nat, ghost w: World)
      requires forall i :: 0 <= i < |list| ==> list[i] < |mStreams|
      requires w.port == State() && w.al.stream == c.allocStreamId
      modifies this, c`allocStreamId
      ensures State() == Edited(w, CopyStreams(list, count)).port
      ensures c.allocStreamId == Edited(w, CopyStreams(list, count)).al.stream
    {
      hide AddedStream;
      var sources: seq<StreamBody> := [];
      for i := 0 to |list|
        invariant sources == Sources(w.port, list)[..i]
      {
        sources := sources + [mStreams[list[i]].value];
      }
      assert sources == Sources(w.port, list);
      for i := 0 to count
        invariant State() == CopiedTimes(w, sources, i).port
        invariant c.allocStreamId == CopiedTimes(w, sources, i).al.stream
      {
        CopyRound(c, sources, i + 1, CopiedTimes(w, sources, i));
      }
      dirty := true;
    }

    method CopyRound(c: Counters, sources: seq<StreamBody>, round: nat, ghost v: World)
      requires v.port == State() && v.al.stream == c.allocStreamId
      modifies this, c`allocStreamId
      ensures State() == Copied(v, sources, round).port
      ensures c.allocStreamId == Copied(v, sources, round).al.stream
    {
      hide AddedStream;
      for j := 0 to |sources|
        invariant State() == Copied(v, sources[..j], round).port
        invariant c.allocStreamId == Copied(v, sources[..j], round).al.stream
      {
        assert sources[..j + 1][..j] == sources[..j];
        CopyOne(c, sources[j], round, Copied(v, sources[..j], round));
      }
      assert sources[..|sources|] == sources;
    }

    method CopyOne(c: Counters, source: StreamBody, round: nat, ghost v: World)
      requires v.port == State() && v.al.stream == c.allocStreamId
      modifies this, c`allocStreamId
      ensures State() == CopiedOne(v, source, round).port && c.allocStreamId == CopiedOne(v, source, round).al.stream
    {
      var insertAt := |mStreams|;
      var _ := NewStreamAt(c, insertAt, Some(source));
      var s := mStreams[insertAt];
      mStreams := mStreams[insertAt := Entry(s.id, s.value.(text := CopyName(s.value.text, round)))];
    }

    // ------- device groups -------

    method DeviceGroupById(deviceGroupId: nat) returns (i: nat)
      ensures i == Find(deviceGroups, deviceGroupId)
    {
      i := 0;
      while i < |deviceGroups| && deviceGroups[i].id != deviceGroupId
        invariant i <= |deviceGroups|
        invariant Find(deviceGroups, deviceGroupId) == i + Find(deviceGroups[i..], deviceGroupId)
      {
        assert deviceGroups[i..][1..] == deviceGroups[i + 1..];
        i := i + 1;
      }
    }

    method NewDeviceGroupAt(c: Counters, index: int, deviceGroup: GroupBody) returns (ok: bool)
      modifies this, c`allocDeviceGroupId
      ensures ok == (0 <= index <= |old(deviceGroups)|)
      ensures if ok
              then State() == PortEdits.NewGroupAt(old(State()), old(c.allocDeviceGroupId), index, deviceGroup)
                   && c.allocDeviceGroupId == old(c.allocDeviceGroupId) + 1
              else State() == old(State()) && c.allocDeviceGroupId == old(c.allocDeviceGroupId)
    {
      if index < 0 || index > |deviceGroups| { return false; }
      var id := c.allocDeviceGroupId;
      c.allocDeviceGroupId := c.allocDeviceGroupId + 1;
      deviceGroups := InsertedAt(deviceGroups, index, Entry(id, deviceGroup));
      modifiedDeviceGroupList := modifiedDeviceGroupList + {id};
      dirty := true;
      ok := true;
    }

    method DeleteDeviceGroupAt(index: int) returns (ok: bool)
      modifies this
      ensures ok == (0 <= index < |old(deviceGroups)|)
      ensures State() == if ok then PortEdits.DeleteGroupAt(old(State()), index) else old(State())
    {
      if index < 0 || index >= |deviceGroups| { return false; }
      var g := deviceGroups[index];
      deviceGroups := Without(deviceGroups, index);
      modifiedDeviceGroupList := modifiedDeviceGroupList - {g.id};
      dirty := true;
      ok := true;
    }

    /** mutableDeviceGroupByIndex; the caller writes `body` through the pointer at once. */
    method SetDeviceGroupAt(index: int, body: GroupBody) returns (ok: bool)
      modifies this
      ensures ok == (0 <= index < |old(deviceGroups)|)
      ensures State() == if ok then PortEdits.SetGroupAt(old(State()), index, body) else old(State())
    {
      if index < 0 || index >= |deviceGroups| { return false; }
      modifiedDeviceGroupList := modifiedDeviceGroupList + {deviceGroups[index].id};
      dirty := true;
      deviceGroups := deviceGroups[index := Entry(deviceGroups[index].id, body)];
      ok := true;
    }

    method InsertDeviceGroup(c: Counters, deviceGroupId: nat, body: GroupBody) returns (ok: bool)
      modifies this`deviceGroups, c`allocDeviceGroupId
      ensures ok == (Find(old(deviceGroups), deviceGroupId) == |old(deviceGroups)|)
      ensures State() == PortEdits.InsertGroup(old(State()), deviceGroupId, body)
      ensures c.allocDeviceGroupId
           == if ok then Max(old(c.allocDeviceGroupId), deviceGroupId + 1) else old(c.allocDeviceGroupId)
    {
      var i := DeviceGroupById(deviceGroupId);
      if i < |deviceGroups| { return false; }
      deviceGroups := deviceGroups + [Entry(deviceGroupId, body)];
      if c.allocDeviceGroupId <= deviceGroupId {
        c.allocDeviceGroupId := deviceGroupId + 1;
      }
      ok := true;
    }

    method UpdateDeviceGroup(deviceGroup: Group) returns (ok: bool)
      modifies this`deviceGroups
      ensures ok == (Find(old(deviceGroups), deviceGroup.id) < |old(deviceGroups)|)
      ensures State() == PortEdits.UpdateGroup(old(State()), deviceGroup)
    {
      var i := DeviceGroupById(deviceGroup.id);
      if i == |deviceGroups| { return false; }
      deviceGroups := deviceGroups[i := deviceGroup];
      ok := true;
    }

    // ------- changes since the last synchronisation -------

    method GetDeletedStreamsSinceLastSync() returns (ids: seq<nat>)
      ensures ids == StreamsDeleted(State())
    {
      ids := [];
      for i := 0 to |mLastSyncStreamList|
        invariant ids == Missing(mLastSyncStreamList[..i], IdSet(mStreams))
      {
        assert mLastSyncStreamList[..i + 1][..i] == mLastSyncStreamList[..i];
        var j := IndexOfStream(mLastSyncStreamList[i]);
        FindIn(mStreams, mLastSyncStreamList[i]);
        if j == |mStreams| {
          ids := ids + [mLastSyncStreamList[i]];
        }
      }
      assert mLastSyncStreamList[..|mLastSyncStreamList|] == mLastSyncStreamList;
    }

    method GetNewStreamsSinceLastSync() returns (ids: seq<nat>)
      ensures ids == StreamsNew(State())
    {
      ids := [];
      for i := 0 to |mStreams|
        invariant ids == Missing(Ids(mStreams)[..i], SetOf(mLastSyncStreamList))
      {
        assert Ids(mStreams)[..i + 1][..i] == Ids(mStreams)[..i];
        if mStreams[i].id !in mLastSyncStreamList {
          ids := ids + [mStreams[i].id];
        }
      }
      assert Ids(mStreams)[..|mStreams|] == Ids(mStreams);
    }

    method GetDeletedDeviceGroupsSinceLastSync() returns (ids: seq<nat>)
      ensures ids == GroupsDeleted(State())
    {
      ids := [];
      for i := 0 to |lastSyncDeviceGroupList|
        invariant ids == Missing(lastSyncDeviceGroupList[..i], IdSet(deviceGroups))
      {
        assert lastSyncDeviceGroupList[..i + 1][..i] == lastSyncDeviceGroupList[..i];
        var j := DeviceGroupById(lastSyncDeviceGroupList[i]);
        FindIn(deviceGroups, lastSyncDeviceGroupList[i]);
        if j == |deviceGroups| {
          ids := ids + [lastSyncDeviceGroupList[i]];
        }
      }
      assert lastSyncDeviceGroupList[..|lastSyncDeviceGroupList|] == lastSyncDeviceGroupList;
    }

    method GetNewDeviceGroupsSinceLastSync() returns (ids: seq<nat>)
      ensures ids == GroupsNew(State())
    {
      ids := [];
      for i := 0 to |deviceGroups|
        invariant ids == Missing(Ids(deviceGroups)[..i], SetOf(lastSyncDeviceGroupList))
      {
        assert Ids(deviceGroups)[..i + 1][..i] == Ids(deviceGroups)[..i];
        if deviceGroups[i].id !in lastSyncDeviceGroupList {
          ids := ids + [deviceGroups[i].id];
        }
      }
      assert Ids(deviceGroups)[..|deviceGroups|] == Ids(deviceGroups);
    }

    /** A set is walked in no particular order; every id in it must be that of a live group. */
    method GetModifiedDeviceGroupsSinceLastSync() returns (list: seq<Group>)
      requires modifiedDeviceGroupList <= IdSet(deviceGroups)
      ensures ModifiedList(State(), list)
    {
      hide Find, ToMap, IdSet, Distinct;
      list := [];
      NoneYet(list);
      var rest := modifiedDeviceGroupList;
      while rest != {}
        invariant rest <= modifiedDeviceGroupList
        invariant Distinct(list) && IdSet(list) == modifiedDeviceGroupList - rest
        invariant forall i :: 0 <= i < |list| ==> list[i] in deviceGroups
        decreases |rest|
      {
        var id :| id in rest;
        var i := DeviceGroupById(id);
        FindIn(deviceGroups, id);
        Appended(list, deviceGroups[i]);
        assert forall k :: 0 <= k < |list| ==> (list + [deviceGroups[i]])[k] == list[k];
        list := list + [deviceGroups[i]];
        rest := rest - {id};
      }
    }

    method WhenSyncComplete()
      modifies this
      ensures State() == SyncComplete(old(State()))
    {
      mLastSyncStreamList := [];
      for i := 0 to |mStreams|
        invariant mStreams == old(mStreams) && deviceGroups == old(deviceGroups)
        invariant mLastSyncStreamList == Ids(mStreams)[..i]
      {
        mLastSyncStreamList := mLastSyncStreamList + [mStreams[i].id];
      }
      lastSyncDeviceGroupList := [];
      for i := 0 to |deviceGroups|
        invariant mStreams == old(mStreams) && deviceGroups == old(deviceGroups)
        invariant mLastSyncStreamList == Ids(mStreams)
        invariant lastSyncDeviceGroupList == Ids(deviceGroups)[..i]
      {
        lastSyncDeviceGroupList := lastSyncDeviceGroupList + [deviceGroups[i].id];
      }
      modifiedDeviceGroupList := {};
      dirty := false;
    }
  }

  lemma NoneYet(list: seq<Group>)
    requires list == []
    ensures Distinct(list) && IdSet(list) == {}
  {
  }

  /** when_configApply with its replies: the window takes no input until the last of them, so
      no edit comes in between.  A request with nothing in it is not sent. */
  method ConfigApply(p: Port, a: Agent) returns (b: Agent, ghost order: seq<Group>)
    requires p.modifiedDeviceGroupList <= IdSet(p.deviceGroups)
    modifies p
    ensures ModifiedList(old(p.State()), order) && b == Requested(old(p.State()), a, order)
    ensures p.State() == SyncComplete(old(p.State()))
    ensures Synced(old(p.State()), a) ==>
      && Synced(p.State(), b) && Carries(b, old(p.mStreams)) && b.groups == NormAll(ToMap(old(p.deviceGroups)))
  {
    hide Missing, ToMap, Norm, Build, Synced, Carries;
    ghost var before := p.State();
    b := a;
    var ids := p.GetDeletedDeviceGroupsSinceLastSync();
    if ids != [] { b := DeleteGroups(b, ids); }
    ids := p.GetNewDeviceGroupsSinceLastSync();
    if ids != [] { b := AddGroups(b, ids); }
    var list := p.GetModifiedDeviceGroupsSinceLastSync();
    order := list;
    if list != [] { b := ModifyGroups(b, list); }
    ids := p.GetDeletedStreamsSinceLastSync();
    if ids != [] { b := DeleteStreams(b, ids); }
    ids := p.GetNewStreamsSinceLastSync();
    if ids != [] { b := AddStreams(b, ids); }
    if p.mStreams != [] { b := ModifyStreams(b, p.mStreams); }
    b := Build(b);
    p.WhenSyncComplete();
    if Synced(before, a) { ApplyConverges(before, a, order); }
  }
}
