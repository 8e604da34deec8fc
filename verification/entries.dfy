/** Lists of records that carry an id, and what they mean as maps from ids. */
module Entries {

  datatype Entry<T> = Entry(id: nat, value: T)

  predicate Distinct<T>(s: seq<Entry<T>>) {
    forall i, j :: 0 <= i < j < |s| ==> s[i].id != s[j].id
  }

  function Ids<T>(s: seq<Entry<T>>): (r: seq<nat>)
    ensures |r| == |s| && forall i :: 0 <= i < |s| ==> r[i] == s[i].id
  {
    seq(|s|, i requires 0 <= i < |s| => s[i].id)
  }

  function IdSet<T>(s: seq<Entry<T>>): set<nat> { set i | 0 <= i < |s| :: s[i].id }

  function ToMap<T>(s: seq<Entry<T>>): map<nat, T>
    requires Distinct(s)
  {
    map i | 0 <= i < |s| :: s[i].id := s[i].value
  }

  /** The first entry with the id, or the length of the list. */
  function Find<T>(s: seq<Entry<T>>, id: nat): (k: nat)
    ensures k <= |s|
    ensures k < |s| ==> s[k].id == id
    ensures forall i :: 0 <= i < k ==> s[i].id != id
  {
    if s == [] then 0 else if s[0].id == id then 0 else 1 + Find(s[1..], id)
  }

  function Without<T>(s: seq<T>, k: nat): seq<T>
    requires k < |s|
  {
    s[..k] + s[k + 1..]
  }

  function InsertedAt<T>(s: seq<T>, k: nat, x: T): seq<T>
    requires k <= |s|
  {
    s[..k] + [x] + s[k..]
  }

  lemma FindIn<T>(s: seq<Entry<T>>, id: nat)
    ensures Find(s, id) < |s| <==> id in IdSet(s)
  {
  }

  lemma MapKeys<T>(s: seq<Entry<T>>)
    requires Distinct(s)
    ensures ToMap(s).Keys == IdSet(s)
  {
  }

  lemma MapAt<T>(s: seq<Entry<T>>, k: nat)
    requires Distinct(s) && k < |s|
    ensures s[k].id in ToMap(s) && ToMap(s)[s[k].id] == s[k].value
  {
  }

  /** `m` holds exactly the entries of `s`. */
  predicate Maps<T(==)>(s: seq<Entry<T>>, m: map<nat, T>) {
    && (forall id :: id in m.Keys ==> id in IdSet(s))
    && (forall i :: 0 <= i < |s| ==> s[i].id in m && m[s[i].id] == s[i].value)
  }

  lemma MapsIsMap<T>(s: seq<Entry<T>>, m: map<nat, T>)
    requires Distinct(s) && Maps(s, m)
    ensures m == ToMap(s)
  {
    forall id | id in m.Keys ensures id in ToMap(s) && ToMap(s)[id] == m[id] {
      var i :| 0 <= i < |s| && s[i].id == id;
      MapAt(s, i);
    }
  }

  lemma IsMaps<T>(s: seq<Entry<T>>)
    requires Distinct(s)
    ensures Maps(s, ToMap(s))
  {
    MapKeys(s);
    forall i | 0 <= i < |s| ensures s[i].id in ToMap(s) && ToMap(s)[s[i].id] == s[i].value { MapAt(s, i); }
  }

  lemma WithoutAt<T>(s: seq<T>, k: nat)
    requires k < |s|
    ensures |Without(s, k)| == |s| - 1
    ensures forall i :: 0 <= i < k ==> Without(s, k)[i] == s[i]
    ensures forall i :: k <= i < |s| - 1 ==> Without(s, k)[i] == s[i + 1]
  {
  }

  lemma RemovedIds<T>(s: seq<Entry<T>>, k: nat)
    requires Distinct(s) && k < |s|
    ensures Distinct(Without(s, k)) && IdSet(Without(s, k)) == IdSet(s) - {s[k].id}
  {
    WithoutAt(s, k);
    hide Without;
    var r := Without(s, k);
    forall id | id in IdSet(s) - {s[k].id} ensures id in IdSet(r) {
      var i :| 0 <= i < |s| && s[i].id == id;
      assert if i < k then r[i] == s[i] else r[i - 1] == s[i];
    }
  }

  lemma Removed<T>(s: seq<Entry<T>>, k: nat)
    requires Distinct(s) && k < |s|
    ensures Distinct(Without(s, k)) && ToMap(Without(s, k)) == ToMap(s) - {s[k].id}
    ensures IdSet(Without(s, k)) == IdSet(s) - {s[k].id}
  {
    WithoutAt(s, k);
    RemovedIds(s, k);
    IsMaps(s);
    hide ToMap, Without;
    var (r, m) := (Without(s, k), ToMap(s) - {s[k].id});
    forall i | 0 <= i < |r| ensures r[i].id in m && m[r[i].id] == r[i].value {
      if i < k { assert r[i] == s[i]; } else { assert r[i] == s[i + 1]; }
    }
    MapsIsMap(r, m);
  }

  lemma InsertedIndex<T>(s: seq<T>, k: nat, e: T)
    requires k <= |s|
    ensures |InsertedAt(s, k, e)| == |s| + 1 && InsertedAt(s, k, e)[k] == e
    ensures forall i :: 0 <= i < k ==> InsertedAt(s, k, e)[i] == s[i]
    ensures forall i :: k < i <= |s| ==> InsertedAt(s, k, e)[i] == s[i - 1]
  {
  }

  lemma InsertedIds<T>(s: seq<Entry<T>>, k: nat, e: Entry<T>)
    requires Distinct(s) && k <= |s| && e.id !in IdSet(s)
    ensures Distinct(InsertedAt(s, k, e)) && IdSet(InsertedAt(s, k, e)) == IdSet(s) + {e.id}
  {
    InsertedIndex(s, k, e);
    hide InsertedAt;
    var r := InsertedAt(s, k, e);
    forall id | id in IdSet(s) + {e.id} ensures id in IdSet(r) {
      if id == e.id {
        assert r[k].id == id;
      } else {
        var i :| 0 <= i < |s| && s[i].id == id;
        assert if i < k then r[i] == s[i] else r[i + 1] == s[i];
      }
    }
  }

  lemma Inserted<T>(s: seq<Entry<T>>, k: nat, e: Entry<T>)
    requires Distinct(s) && k <= |s| && e.id !in IdSet(s)
    ensures Distinct(InsertedAt(s, k, e)) && ToMap(InsertedAt(s, k, e)) == ToMap(s)[e.id := e.value]
    ensures IdSet(InsertedAt(s, k, e)) == IdSet(s) + {e.id}
  {
    InsertedIndex(s, k, e);
    InsertedIds(s, k, e);
    IsMaps(s);
    hide ToMap, InsertedAt;
    var r, m := InsertedAt(s, k, e), ToMap(s)[e.id := e.value];
    forall i | 0 <= i < |r| ensures r[i].id in m && m[r[i].id] == r[i].value {
      if i < k { assert r[i] == s[i]; } else if i > k { assert r[i] == s[i - 1]; }
    }
    MapsIsMap(r, m);
  }

  lemma Appended<T>(s: seq<Entry<T>>, e: Entry<T>)
    requires Distinct(s) && e.id !in IdSet(s)
    ensures Distinct(s + [e]) && ToMap(s + [e]) == ToMap(s)[e.id := e.value]
    ensures IdSet(s + [e]) == IdSet(s) + {e.id}
  {
    hide ToMap, IdSet, Distinct;
    Inserted(s, |s|, e);
    assert InsertedAt(s, |s|, e) == s + [e];
  }

  lemma InOutAt<T>(s: seq<T>, k: nat, e: T)
    requires k < |s|
    ensures InsertedAt(Without(s, k), k, e) == s[k := e]
  {
  }

  lemma TakenAndPut<T>(m: map<nat, T>, id: nat, x: T)
    ensures (m - {id})[id := x] == m[id := x]
  {
  }

  lemma Back(s: set<nat>, id: nat)
    requires id in s
    ensures s - {id} + {id} == s
  {
  }

  lemma Replaced<T>(s: seq<Entry<T>>, k: nat, x: T)
    requires Distinct(s) && k < |s|
    ensures var r := s[k := Entry(s[k].id, x)];
            Distinct(r) && ToMap(r) == ToMap(s)[s[k].id := x] && IdSet(r) == IdSet(s)
  {
    assert s[k].id in IdSet(s);
    hide ToMap, IdSet, Distinct;
    var e := Entry(s[k].id, x);
    Removed(s, k);
    Inserted(Without(s, k), k, e);
    InOutAt(s, k, e);
    TakenAndPut(ToMap(s), e.id, x);
    Back(IdSet(s), e.id);
    hide Without, InsertedAt;
  }
}
