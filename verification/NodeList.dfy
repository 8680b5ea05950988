/** The node list of lib/mapreduce/channels_conf.c, on which every node of a cluster has to
    agree although each computes it from its own channel table. */
module NodeList {

  import opened Sequences
  import opened Orders

  datatype Mode = ReadMode | WriteMode

  datatype Channel = Channel(nodetype: int, nodeid: int, fd: int, mode: Mode)

  predicate Matches(c: Channel, nodetype: int, mode: Mode) {
    c.nodetype == nodetype && c.mode == mode
  }

  /** The ids of the channels of one kind, in table order. */
  function Ids(cs: seq<Channel>, nodetype: int, mode: Mode): seq<int> {
    if cs == [] then [] else
      var n := |cs| - 1;
      Ids(cs[..n], nodetype, mode) + if Matches(cs[n], nodetype, mode) then [cs[n].nodeid] else []
  }

  /** The order of cmp_by_node_type_and_id. */
  predicate Before(a: Channel, b: Channel) {
    a.nodetype < b.nodetype || (a.nodetype == b.nodetype && a.nodeid <= b.nodeid)
  }

  ghost predicate Sorted(cs: seq<Channel>) {
    forall i, j :: 0 <= i < j < |cs| ==> Before(cs[i], cs[j])
  }

  /** Where a table has channels of one kind. */
  ghost function Places(cs: seq<Channel>, nodetype: int, mode: Mode): set<int> {
    set i | 0 <= i < |cs| && cs[i].nodetype == nodetype && cs[i].mode == mode
  }

  /** Where it has channels of one kind to one node. */
  ghost function PlacesTo(cs: seq<Channel>, nodetype: int, mode: Mode, id: int): set<int> {
    set i | 0 <= i < |cs| && cs[i].nodetype == nodetype && cs[i].mode == mode && cs[i].nodeid == id
  }

  /** The nodes that a table names: those of its read channels of the type if there are more of these
      than of write channels, else those of its write channels. */
  ghost predicate Names(cs: seq<Channel>, nodetype: int, ids: multiset<int>) {
    forall id :: ids[id] ==
      if |Places(cs, nodetype, ReadMode)| > |Places(cs, nodetype, WriteMode)|
      then |PlacesTo(cs, nodetype, ReadMode, id)| else |PlacesTo(cs, nodetype, WriteMode, id)|
  }

  /** GetNodesListByType; sorted is what qsort made of the table. */
  method GetNodesListByType(channels: seq<Channel>, sorted: seq<Channel>, nodetype: int) returns (nodes: seq<int>)
    requires multiset(sorted) == multiset(channels) && Sorted(sorted)
    ensures Ascending(nodes) && Names(channels, nodetype, multiset(nodes))
    ensures var ins, outs := |Places(channels, nodetype, ReadMode)|, |Places(channels, nodetype, WriteMode)|;
            && |nodes| == (if ins > outs then ins else outs)
            && forall id :: multiset(nodes)[id] ==
                 |PlacesTo(channels, nodetype, if ins > outs then ReadMode else WriteMode, id)|
  {
    var readers, writers := 0, 0;
    var i := 0;
    while i < |channels|
      invariant 0 <= i <= |channels|
      invariant readers == |Ids(channels[..i], nodetype, ReadMode)|
      invariant writers == |Ids(channels[..i], nodetype, WriteMode)|
    {
      assert channels[..i + 1][..i] == channels[..i];
      if channels[i].nodetype == nodetype && channels[i].mode == ReadMode {
        readers := readers + 1;
      } else if channels[i].nodetype == nodetype && channels[i].mode == WriteMode {
        writers := writers + 1;
      }
      i := i + 1;
    }
    assert channels[..i] == channels;
    var mode := if readers > writers then ReadMode else WriteMode;
    nodes := [];
    i := 0;
    while i < |sorted|
      invariant 0 <= i <= |sorted|
      invariant nodes == Ids(sorted[..i], nodetype, mode)
    {
      assert sorted[..i + 1][..i] == sorted[..i];
      if sorted[i].nodetype == nodetype && sorted[i].mode == mode {
        nodes := nodes + [sorted[i].nodeid];
      }
      i := i + 1;
    }
    assert sorted[..i] == sorted;
    IdsAscending(sorted, nodetype, mode);
    IdsPermuted(sorted, channels, nodetype, mode);
    IdsPlaces(channels, nodetype, ReadMode);
    IdsPlaces(channels, nodetype, WriteMode);
    SameLength(nodes, Ids(channels, nodetype, mode));
  }

  lemma {:induction false} LengthPlaces(cs: seq<Channel>, nodetype: int, mode: Mode)
    ensures |Ids(cs, nodetype, mode)| == |Places(cs, nodetype, mode)|
  {
    hide Places;
    if cs != [] {
      LengthPlaces(cs[..|cs| - 1], nodetype, mode);
      PlacesStep(cs, nodetype, mode);
    } else {
      NowhereAtAll(nodetype, mode);
    }
  }

  lemma NowhereAtAll(nodetype: int, mode: Mode)
    ensures Places([], nodetype, mode) == {}
  {
  }

  lemma PlacesStep(cs: seq<Channel>, nodetype: int, mode: Mode)
    requires cs != []
    ensures var n := |cs| - 1;
            |Places(cs, nodetype, mode)| ==
              |Places(cs[..n], nodetype, mode)| + if Matches(cs[n], nodetype, mode) then 1 else 0
  {
    var n := |cs| - 1;
    var before := Places(cs[..n], nodetype, mode);
    if Matches(cs[n], nodetype, mode) {
      assert Places(cs, nodetype, mode) == before + {n};
    } else {
      assert Places(cs, nodetype, mode) == before;
    }
  }

  lemma {:induction false} CountPlaces(cs: seq<Channel>, nodetype: int, mode: Mode, id: int)
    ensures Count(cs, nodetype, mode, id) == |PlacesTo(cs, nodetype, mode, id)|
  {
    hide PlacesTo;
    if cs != [] {
      var n := |cs| - 1;
      CountPlaces(cs[..n], nodetype, mode, id);
      PlacesToStep(cs, nodetype, mode, id);
    } else {
      NoPlaces(nodetype, mode, id);
    }
  }

  lemma NoPlaces(nodetype: int, mode: Mode, id: int)
    ensures PlacesTo([], nodetype, mode, id) == {}
  {
  }

  lemma PlacesToStep(cs: seq<Channel>, nodetype: int, mode: Mode, id: int)
    requires cs != []
    ensures var n := |cs| - 1;
            |PlacesTo(cs, nodetype, mode, id)| == |PlacesTo(cs[..n], nodetype, mode, id)| +
              if Matches(cs[n], nodetype, mode) && cs[n].nodeid == id then 1 else 0
  {
    var n := |cs| - 1;
    var before := PlacesTo(cs[..n], nodetype, mode, id);
    assert forall i :: i in before <==> i in PlacesTo(cs, nodetype, mode, id) && i < n;
    if Matches(cs[n], nodetype, mode) && cs[n].nodeid == id {
      assert PlacesTo(cs, nodetype, mode, id) == before + {n};
    } else {
      assert PlacesTo(cs, nodetype, mode, id) == before;
    }
  }

  lemma IdsPlaces(cs: seq<Channel>, nodetype: int, mode: Mode)
    ensures |Ids(cs, nodetype, mode)| == |Places(cs, nodetype, mode)|
    ensures forall id :: multiset(Ids(cs, nodetype, mode))[id] == |PlacesTo(cs, nodetype, mode, id)|
  {
    hide Ids, Places, PlacesTo, Count;
    LengthPlaces(cs, nodetype, mode);
    forall id
      ensures multiset(Ids(cs, nodetype, mode))[id] == |PlacesTo(cs, nodetype, mode, id)|
    {
      IdsCount(cs, nodetype, mode, id);
      CountPlaces(cs, nodetype, mode, id);
    }
  }

  lemma {:induction false} IdsFrom(cs: seq<Channel>, nodetype: int, mode: Mode, k: nat)
    requires k < |Ids(cs, nodetype, mode)|
    ensures exists i :: 0 <= i < |cs| && Matches(cs[i], nodetype, mode) && cs[i].nodeid == Ids(cs, nodetype, mode)[k]
  {
    var n := |cs| - 1;
    if k < |Ids(cs[..n], nodetype, mode)| {
      IdsFrom(cs[..n], nodetype, mode, k);
      var i :| 0 <= i < n && Matches(cs[..n][i], nodetype, mode)
        && cs[..n][i].nodeid == Ids(cs[..n], nodetype, mode)[k];
      assert cs[i] == cs[..n][i];
    } else {
      assert Matches(cs[n], nodetype, mode);
    }
  }

  lemma {:induction false} IdsAscending(cs: seq<Channel>, nodetype: int, mode: Mode)
    requires Sorted(cs)
    ensures Ascending(Ids(cs, nodetype, mode))
  {
    if cs != [] {
      var n := |cs| - 1;
      IdsAscending(cs[..n], nodetype, mode);
      var r := Ids(cs[..n], nodetype, mode);
      if Matches(cs[n], nodetype, mode) {
        forall k | 0 <= k < |r|
          ensures r[k] <= cs[n].nodeid
        {
          IdsFrom(cs[..n], nodetype, mode, k);
          var i :| 0 <= i < n && Matches(cs[..n][i], nodetype, mode) && cs[..n][i].nodeid == r[k];
          assert Before(cs[i], cs[n]);
        }
      }
    }
  }

  /** The ids as a multiset, which does not depend on the order of the table. */
  lemma {:induction false} IdsCount(cs: seq<Channel>, nodetype: int, mode: Mode, id: int)
    ensures multiset(Ids(cs, nodetype, mode))[id] == Count(cs, nodetype, mode, id)
  {
    if cs != [] {
      IdsCount(cs[..|cs| - 1], nodetype, mode, id);
    }
  }

  function Count(cs: seq<Channel>, nodetype: int, mode: Mode, id: int): nat {
    if cs == [] then 0 else
      var n := |cs| - 1;
      Count(cs[..n], nodetype, mode, id) + if Matches(cs[n], nodetype, mode) && cs[n].nodeid == id then 1 else 0
  }

  lemma {:induction false} CountConcat(a: seq<Channel>, b: seq<Channel>, nodetype: int, mode: Mode, id: int)
    ensures Count(a + b, nodetype, mode, id) == Count(a, nodetype, mode, id) + Count(b, nodetype, mode, id)
  {
    if b == [] {
      assert a + b == a;
    } else {
      assert (a + b)[..|a + b| - 1] == a + b[..|b| - 1];
      CountConcat(a, b[..|b| - 1], nodetype, mode, id);
    }
  }

  lemma {:induction false} CountPermuted(a: seq<Channel>, b: seq<Channel>, nodetype: int, mode: Mode, id: int)
    requires multiset(a) == multiset(b)
    ensures Count(a, nodetype, mode, id) == Count(b, nodetype, mode, id)
    decreases |a|
  {
    hide Count;
    if a == [] {
      assert |multiset(b)| == 0;
      assert b == [];
    } else {
      var n := |a| - 1;
      assert a[n] in multiset(b);
      var k :| 0 <= k < |b| && b[k] == a[n];
      Removed(a, n);
      Removed(b, k);
      CountRemoved(a, n, nodetype, mode, id);
      CountRemoved(b, k, nodetype, mode, id);
      CountPermuted(RemoveAt(a, n), RemoveAt(b, k), nodetype, mode, id);
    }
  }

  lemma Removed(cs: seq<Channel>, k: nat)
    requires k < |cs|
    ensures multiset(RemoveAt(cs, k)) == multiset(cs) - multiset{cs[k]}
  {
    assert cs == cs[..k] + [cs[k]] + cs[k + 1..];
    assert RemoveAt(cs, k) == cs[..k] + cs[k + 1..];
  }

  lemma CountRemoved(cs: seq<Channel>, k: nat, nodetype: int, mode: Mode, id: int)
    requires k < |cs|
    ensures Count(cs, nodetype, mode, id) ==
              Count(RemoveAt(cs, k), nodetype, mode, id) + Count([cs[k]], nodetype, mode, id)
  {
    hide Count;
    var l, x, r := cs[..k], [cs[k]], cs[k + 1..];
    assert cs == l + x + r && RemoveAt(cs, k) == l + r;
    CountConcat(l + x, r, nodetype, mode, id);
    CountConcat(l, x, nodetype, mode, id);
    CountConcat(l, r, nodetype, mode, id);
  }

  lemma IdsPermuted(a: seq<Channel>, b: seq<Channel>, nodetype: int, mode: Mode)
    requires multiset(a) == multiset(b)
    ensures multiset(Ids(a, nodetype, mode)) == multiset(Ids(b, nodetype, mode))
  {
    forall id
      ensures multiset(Ids(a, nodetype, mode))[id] == multiset(Ids(b, nodetype, mode))[id]
    {
      IdsCount(a, nodetype, mode, id);
      IdsCount(b, nodetype, mode, id);
      CountPermuted(a, b, nodetype, mode, id);
    }
  }

  lemma LastIsGreatest(s: seq<int>, x: int)
    requires Ascending(s) && x in multiset(s)
    ensures s != [] && x <= s[|s| - 1]
  {
    var i :| 0 <= i < |s| && s[i] == x;
  }

  lemma DropLast(s: seq<int>)
    requires s != []
    ensures multiset(s[..|s| - 1]) == multiset(s) - multiset{s[|s| - 1]}
    ensures Ascending(s) ==> Ascending(s[..|s| - 1])
  {
    assert s == s[..|s| - 1] + [s[|s| - 1]];
  }

  /** There is only one ascending arrangement of the same ids. */
  lemma {:induction false} AscendingUnique(a: seq<int>, b: seq<int>)
    requires Ascending(a) && Ascending(b) && multiset(a) == multiset(b)
    ensures a == b
    decreases |a|
  {
    hide Ascending;
    SameLength(a, b);
    if a != [] {
      var n := |a| - 1;
      LastAgrees(a, b);
      DropLast(a);
      DropLast(b);
      AscendingUnique(a[..n], b[..n]);
      Snoc(a);
      Snoc(b);
    }
  }

  lemma SameLength(a: seq<int>, b: seq<int>)
    requires multiset(a) == multiset(b)
    ensures |a| == |b|
  {
    assert |a| == |multiset(a)| && |b| == |multiset(b)|;
  }

  lemma LastAgrees(a: seq<int>, b: seq<int>)
    requires Ascending(a) && Ascending(b) && multiset(a) == multiset(b) && |a| == |b| > 0
    ensures a[|a| - 1] == b[|b| - 1]
  {
    hide Ascending;
    var n := |a| - 1;
    assert a[n] in multiset(b) && b[n] in multiset(a);
    LastIsGreatest(b, a[n]);
    LastIsGreatest(a, b[n]);
  }

  lemma Snoc(s: seq<int>)
    requires s != []
    ensures s == s[..|s| - 1] + [s[|s| - 1]]
  {
  }

  // ---- a whole cluster

  /** Two ascending lists agree whenever their tables name the same nodes, in whatever order and with
      whatever descriptors they list them. */
  lemma NodesAgree(ca: seq<Channel>, a: seq<int>, cb: seq<Channel>, b: seq<int>, nodetype: int, ids: multiset<int>)
    requires Ascending(a) && Names(ca, nodetype, multiset(a)) && Names(ca, nodetype, ids)
    requires Ascending(b) && Names(cb, nodetype, multiset(b)) && Names(cb, nodetype, ids)
    ensures a == b && multiset(a) == ids
  {
    hide Ascending, Places, PlacesTo;
    assert forall id :: multiset(a)[id] == ids[id];
    assert forall id :: multiset(b)[id] == ids[id];
    AscendingUnique(a, b);
  }

  ghost predicate SortedTables(tables: seq<seq<Channel>>, sorted: seq<seq<Channel>>) {
    && |tables| == |sorted|
    && forall j :: 0 <= j < |tables| ==> multiset(sorted[j]) == multiset(tables[j]) && Sorted(sorted[j])
  }

  ghost predicate SameIds(tables: seq<seq<Channel>>, nodetype: int, ids: seq<int>) {
    forall j :: 0 <= j < |tables| ==> Names(tables[j], nodetype, multiset(ids))
  }

  /** All nodes of a cluster whose tables name the same ids, each once, work with one list, ascending
      and without repetition. */
  lemma ClusterAgrees(tables: seq<seq<Channel>>, lists: seq<seq<int>>, nodetype: int, ids: seq<int>)
    requires tables != [] && |lists| == |tables| && SameIds(tables, nodetype, ids) && Unique(ids)
    requires forall j :: 0 <= j < |lists| ==> Ascending(lists[j]) && Names(tables[j], nodetype, multiset(lists[j]))
    ensures forall j :: 0 <= j < |lists| ==> lists[j] == lists[0]
    ensures Unique(lists[0]) && |lists[0]| == |ids| && multiset(lists[0]) == multiset(ids)
  {
    hide Ascending, Unique, Names;
    forall j | 0 <= j < |lists|
      ensures lists[j] == lists[0] && multiset(lists[j]) == multiset(ids)
    {
      NodesAgree(tables[j], lists[j], tables[0], lists[0], nodetype, multiset(ids));
    }
    UniquePermuted(ids, lists[0]);
    SameLength(ids, lists[0]);
  }

  lemma UniquePermuted(a: seq<int>, b: seq<int>)
    requires multiset(a) == multiset(b) && Unique(a)
    ensures Unique(b)
  {
    forall i, j | 0 <= i < j < |b|
      ensures b[i] != b[j]
    {
      if b[i] == b[j] {
        AtMostOnce(a, b[i]);
        TwoPlaces(b, i, j);
      }
    }
  }

  lemma {:induction false} AtMostOnce(s: seq<int>, x: int)
    requires Unique(s)
    ensures multiset(s)[x] <= 1
  {
    if s != [] {
      var n := |s| - 1;
      AtMostOnce(s[..n], x);
      Snoc(s);
      assert s[n] !in multiset(s[..n]);
    }
  }

  lemma TwoPlaces(s: seq<int>, i: nat, j: nat)
    requires i < j < |s| && s[i] == s[j]
    ensures multiset(s)[s[i]] >= 2
  {
    var a, b := s[..j], s[j..];
    assert s == a + b && a[i] == s[i] && b[0] == s[j];
    assert multiset(s) == multiset(a) + multiset(b);
    assert s[i] in multiset(a) && s[i] in multiset(b);
  }
}
