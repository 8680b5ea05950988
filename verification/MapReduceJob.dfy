/** A job from its beginning (lib/mapreduce/map_reduce_lib.c): every map node samples its first
    chunk, the nodes exchange their histograms, each computes the dividers from what it holds, and
    the chunks are sent and reduced. */
module MapReduceJob {

  import opened Sequences
  import opened Orders
  import opened Wire
  import opened Dividers
  import opened Load
  import E = EachToOther
  import N = NodeList
  import R = MapReduceRun
  import KWayMerge

  function Ranks(items: seq<Item>, rank: Item -> int): (r: seq<int>)
    ensures |r| == |items| && forall i :: 0 <= i < |items| ==> r[i] == rank(items[i])
  {
    seq(|items|, i requires 0 <= i < |items| => rank(items[i]))
  }

  // ---- the first chunk of every map node

  ghost predicate AllDescribe(hs: seq<Histogram>, firsts: seq<seq<Item>>, rank: Item -> int) {
    |hs| == |firsts| && forall m :: 0 <= m < |hs| ==> Describes(hs[m], Ranks(firsts[m], rank))
  }

  /** The hashes of a list of buffers. */
  function RankLists(bufs: seq<seq<Item>>, rank: Item -> int): (r: seq<seq<int>>)
    ensures |r| == |bufs| && forall m :: 0 <= m < |bufs| ==> r[m] == Ranks(bufs[m], rank)
  {
    seq(|bufs|, m requires 0 <= m < |bufs| => Ranks(bufs[m], rank))
  }

  /** A hundredth of a node's even share. */
  function StepOf(count: nat, nodes: nat): nat
    requires nodes > 0
  {
    count / nodes / 100
  }

  /** Each node's own part of MapCreateHistogramSendEachToOtherCreateDividersList.  A chunk of at least
      100 items for each node is sampled at 100 to 200 places for each; a smaller one by its last hash.
      Every histogram stands for exactly the items of its chunk, unless a smaller chunk has 65536
      items or more. */
  method SampleAll(firsts: seq<seq<Item>>, rank: Item -> int) returns (hs: seq<Histogram>)
    requires firsts != [] && forall m :: 0 <= m < |firsts| ==>
               Sorted(firsts[m], rank) && |firsts[m]| < U16 * (100 * |firsts|)
    ensures AllDescribe(hs, firsts, rank)
    ensures forall m :: 0 <= m < |firsts| ==> Sampled(hs[m], firsts[m], |firsts|, rank)
  {
    hide Sampled, Ranks;
    hs := [];
    for m := 0 to |firsts|
      invariant |hs| == m && forall i :: 0 <= i < m ==> Describes(hs[i], Ranks(firsts[i], rank))
      invariant forall i :: 0 <= i < m ==> Sampled(hs[i], firsts[i], |firsts|, rank)
    {
      var h := SampleOne(firsts[m], |firsts|, rank);
      hs := hs + [h];
    }
  }

  /** How densely a chunk is sampled, and when the histogram is exact. */
  ghost predicate Sampled(h: Histogram, items: seq<Item>, nodes: nat, rank: Item -> int) {
    && (if |items| >= 100 * nodes then 100 * nodes <= |h.hashes| <= 200 * nodes else |h.hashes| <= 1)
    && (Close(h, Ranks(items, rank)) <==> |items| >= 100 * nodes || |items| < U16)
  }

  method SampleOne(items: seq<Item>, nodes: nat, rank: Item -> int) returns (h: Histogram)
    requires nodes > 0 && Sorted(items, rank) && |items| < U16 * (100 * nodes)
    ensures Describes(h, Ranks(items, rank)) && Sampled(h, items, nodes, rank)
  {
    hide Ranks, Sorted, Close, Weight, Samples, StepOf;
    RanksAscend(items, rank);
    StepMeaning(|items|, nodes);
    var step := StepOf(|items|, nodes);
    h := GetHistogram(Ranks(items, rank), step);
    if step > 0 || |items| < U16 {
      SampledClose(Ranks(items, rank), step, h);
    } else {
      NotClose(h, Ranks(items, rank));
    }
    if step > 0 {
      Density(h, |items|, nodes, step);
    }
  }

  lemma NotClose(h: Histogram, items: seq<int>)
    requires Weight(h) != |items|
    ensures !Close(h, items)
  {
  }

  /** The step is the whole part of the number of items over 100 times the number of nodes. */
  lemma StepMeaning(count: nat, nodes: nat)
    requires nodes > 0
    ensures StepOf(count, nodes) * (100 * nodes) <= count < (StepOf(count, nodes) + 1) * (100 * nodes)
    ensures StepOf(count, nodes) > 0 <==> count >= 100 * nodes
    ensures count < U16 * (100 * nodes) ==> StepOf(count, nodes) < U16
  {
    hide StepOf;
    StepBounds(count, nodes);
    var step, n := StepOf(count, nodes), 100 * nodes;
    if step > 0 {
      Scaled(1, step, n);
    }
    if count < U16 * n {
      Unscaled(step, U16, n);
    }
  }

  lemma StepBounds(count: nat, nodes: nat)
    requires nodes > 0
    ensures StepOf(count, nodes) * (100 * nodes) <= count < (StepOf(count, nodes) + 1) * (100 * nodes)
  {
    hide StepOf;
    StepIs(count, nodes);
    var share, step := count / nodes, StepOf(count, nodes);
    assert 100 * step <= share && share + 1 <= 100 * step + 100;
    Scaled(100 * step, share, nodes);
    Scaled(share + 1, 100 * step + 100, nodes);
    Regrouped(step, nodes);
    Regrouped(step + 1, nodes);
  }

  lemma Regrouped(step: nat, nodes: nat)
    ensures (100 * step) * nodes == step * (100 * nodes)
  {
  }

  lemma StepIs(count: nat, nodes: nat)
    requires nodes > 0
    ensures StepOf(count, nodes) == count / nodes / 100
  {
  }

  lemma Scaled(a: nat, b: nat, n: nat)
    requires a <= b
    ensures a * n <= b * n
  {
  }

  lemma Unscaled(a: int, b: int, n: int)
    requires n > 0 && a * n < b * n
    ensures a < b
  {
  }

  /** With a positive step between 100 and 200 samples are taken for each node. */
  lemma Density(h: Histogram, count: nat, nodes: nat, step: nat)
    requires nodes > 0 && step > 0 && h.hashes != [] && Weight(h) == count
    requires h.stepLast <= step && (|h.hashes| > 1 ==> h.stepCommon == step)
    requires step * (100 * nodes) <= count < (step + 1) * (100 * nodes)
    ensures 100 * nodes <= |h.hashes| <= 200 * nodes
  {
    var n, samples := 100 * nodes, |h.hashes|;
    assert count == (samples - 1) * step + h.stepLast by {
      assert h.stepCommon * (samples - 1) == (samples - 1) * h.stepCommon;
    }
    assert (samples - 1) * step + step == samples * step && (n - 1) * step == n * step - step;
    assert n * step == step * n && (2 * n) * step == step * n + step * n && (step + 1) * n == step * n + n;
    Scaled(1, step, n);
    Unscaled(n - 1, samples, step);
    Unscaled(samples - 1, 2 * n, step);
  }

  lemma RanksAscend(items: seq<Item>, rank: Item -> int)
    requires Sorted(items, rank)
    ensures Ascending(Ranks(items, rank))
  {
  }

  // ---- the exchange

  /** The ids of the map nodes are 1 to n, so that a node's id minus one is its place in the list. */
  ghost predicate FromOne(nodes: seq<int>) {
    forall j :: 0 <= j < |nodes| ==> nodes[j] == j + 1
  }

  /** What a node holds after the exchange: what it received, at the senders' places in the list, and its
      own histogram at its id minus one. */
  function Table(own: Histogram, got: map<int, Histogram>, id: int, n: nat): seq<Histogram>
    requires forall i :: 0 <= i < n && i != id - 1 ==> i in got
  {
    seq(n, i requires 0 <= i < n => if i == id - 1 then own else got[i])
  }

  /** A run of the exchange of hs over the list of nodes that cannot go on. */
  ghost predicate Exchanged(hs: seq<Histogram>, c: E.Setting<Histogram>, s: E.Net<Histogram>, moves: seq<E.Move>,
                            net: E.Net<Histogram>)
  {
    && c.payload == hs && E.Init(c, s) && E.IsRun(c, s, moves, net) && E.Shaped(c, net)
    && forall m :: !E.Enabled(c, net, m)
  }

  /** Whatever the run, every node ends up with the same histograms in the same order. */
  lemma TablesAgree(hs: seq<Histogram>, c: E.Setting<Histogram>, s: E.Net<Histogram>, moves: seq<E.Move>,
                    net: E.Net<Histogram>, j: nat)
    requires Exchanged(hs, c, s, moves, net) && FromOne(c.nodes) && j < |hs|
    ensures |net.got| == |hs| == |c.nodes| && (forall i :: 0 <= i < |hs| && i != c.nodes[j] - 1 ==> i in net.got[j])
    ensures Table(hs[j], net.got[j], c.nodes[j], |hs|) == hs
  {
    hide E.Init, E.IsRun, E.Enabled;
    E.StuckIsComplete(c, s, moves, net);
  }

  /** Every map node computes the list that the exchange runs over, from its own channel table. */
  method NodeLists(tables: seq<seq<N.Channel>>, sorted: seq<seq<N.Channel>>, nodetype: int, ghost ids: seq<int>)
    returns (lists: seq<seq<int>>)
    requires tables != [] && N.SortedTables(tables, sorted) && N.SameIds(tables, nodetype, ids) && Unique(ids)
    ensures |lists| == |tables| && forall j :: 0 <= j < |lists| ==> lists[j] == lists[0]
    ensures Unique(lists[0]) && Ascending(lists[0]) && |lists[0]| == |ids|
    ensures FromOne(lists[0]) <==> forall i :: 0 <= i < |ids| ==> 1 <= ids[i] <= |ids|
  {
    hide Unique, Ascending, N.SameIds, N.Names, FromOne;
    lists := [];
    for j := 0 to |tables|
      invariant |lists| == j
      invariant forall i :: 0 <= i < j ==> Ascending(lists[i]) && N.Names(tables[i], nodetype, multiset(lists[i]))
    {
      var list := N.GetNodesListByType(tables[j], sorted[j], nodetype);
      lists := lists + [list];
    }
    N.ClusterAgrees(tables, lists, nodetype, ids);
    DenseIffFromOne(ids, lists[0]);
  }

  /** A list of n different ids counts from one exactly when the ids are among 1 to n. */
  lemma DenseIffFromOne(ids: seq<int>, nodes: seq<int>)
    requires Unique(nodes) && Ascending(nodes) && multiset(nodes) == multiset(ids) && |nodes| == |ids|
    ensures FromOne(nodes) <==> forall i :: 0 <= i < |ids| ==> 1 <= ids[i] <= |ids|
  {
    var n := |nodes|;
    if forall i :: 0 <= i < n ==> 1 <= ids[i] <= n {
      forall j | 0 <= j < n
        ensures 1 <= nodes[j] <= n
      {
        assert nodes[j] in multiset(ids);
      }
      forall j | 0 <= j < n
        ensures nodes[j] == j + 1
      {
        Spread(nodes, 0, j);
        Spread(nodes, j, n - 1);
      }
    } else {
      var i :| 0 <= i < n && !(1 <= ids[i] <= n);
      assert ids[i] in multiset(nodes);
      var j :| 0 <= j < n && nodes[j] == ids[i];
    }
  }

  lemma {:induction false} Spread(nodes: seq<int>, i: nat, j: nat)
    requires Unique(nodes) && Ascending(nodes) && i <= j < |nodes|
    ensures nodes[j] - nodes[i] >= j - i
    decreases j
  {
    if i < j {
      Spread(nodes, i, j - 1);
      assert nodes[j - 1] <= nodes[j] && nodes[j - 1] != nodes[j];
    }
  }

  // ---- the dividers

  /** Items that can be sent, sorted, below the greatest hash. */
  ghost predicate Sound(f: Format, items: seq<Item>, rank: Item -> int, top: int) {
    && Sorted(items, rank) && Sendable(f, Packet(false, items))
    && forall i :: 0 <= i < |items| ==> rank(items[i]) <= top
  }

  ghost predicate AllSound(f: Format, mappers: seq<seq<seq<Item>>>, rank: Item -> int, top: int) {
    forall m :: 0 <= m < |mappers| ==>
      mappers[m] != [] && forall c :: 0 <= c < |mappers[m]| ==> Sound(f, mappers[m][c], rank, top)
  }

  ghost function Firsts(mappers: seq<seq<seq<Item>>>): (r: seq<seq<Item>>)
    requires forall m :: 0 <= m < |mappers| ==> mappers[m] != []
    ensures |r| == |mappers| && forall m :: 0 <= m < |r| ==> r[m] == mappers[m][0]
  {
    seq(|mappers|, m requires 0 <= m < |mappers| => mappers[m][0])
  }

  lemma DescribedGood(h: Histogram, items: seq<Item>, rank: Item -> int, top: int)
    requires Describes(h, Ranks(items, rank)) && forall i :: 0 <= i < |items| ==> rank(items[i]) <= top
    ensures forall k :: 0 <= k < |h.hashes| ==> h.hashes[k] <= top
  {
    hide Ranks;
    if h.hashes != [] {
      assert h.hashes[|h.hashes| - 1] == rank(items[|items| - 1]);
    }
  }

  lemma HistogramsGood(f: Format, mappers: seq<seq<seq<Item>>>, hs: seq<Histogram>, rank: Item -> int, top: int)
    requires AllSound(f, mappers, rank, top) && AllDescribe(hs, Firsts(mappers), rank)
    ensures Good(hs, top)
  {
    hide Sorted, Sendable, Ranks;
    forall i | 0 <= i < |hs|
      ensures Describes(hs[i], Ranks(mappers[i][0], rank))
      ensures forall k :: 0 <= k < |hs[i].hashes| ==> hs[i].hashes[k] <= top
    {
      assert Sound(f, mappers[i][0], rank, top);
      DescribedGood(hs[i], mappers[i][0], rank, top);
    }
  }

  /** With dividers that rise to the greatest hash every chunk can be distributed. */
  lemma JobReady(f: Format, mappers: seq<seq<seq<Item>>>, d: seq<int>, rank: Item -> int, top: int)
    requires AllSound(f, mappers, rank, top) && d != [] && Ascending(d) && d[|d| - 1] == top
    ensures R.Job(f, mappers, d, rank)
  {
    hide Sendable, Sorted;
    forall m, c | 0 <= m < |mappers| && 0 <= c < |mappers[m]|
      ensures R.Chunk(f, mappers[m][c], d, rank)
    {
      assert Sound(f, mappers[m][c], rank, top);
    }
  }

  /** The dividers of every map node, each from its own table. */
  method AllDividers(hs: seq<Histogram>, count: nat, top: int, nodes: seq<int>, net: E.Net<Histogram>,
                     ghost c: E.Setting<Histogram>, ghost s: E.Net<Histogram>, ghost moves: seq<E.Move>)
    returns (ds: seq<seq<int>>)
    requires count > 0 && Good(hs, top) && Exchanged(hs, c, s, moves, net)
    requires c.nodes == nodes && FromOne(nodes)
    ensures |ds| == |hs| && forall j :: 0 <= j < |hs| ==> ds[j] == DividersOf(hs, count, top)
    ensures |hs| > 0 ==> var d := DividersOf(hs, count, top); Ascending(d) && d[count - 1] == top
  {
    hide Exchanged, DividersOf, Good;
    ds := [];
    for j := 0 to |hs|
      invariant |ds| == j && forall i :: 0 <= i < j ==> ds[i] == DividersOf(hs, count, top)
      invariant j > 0 ==> var d := DividersOf(hs, count, top); Ascending(d) && d[count - 1] == top
    {
      TablesAgree(hs, c, s, moves, net, j);
      var d := GetDividers(Table(hs[j], net.got[j], nodes[j], |hs|), count, top);
      ds := ds + [d];
    }
  }

  /** The whole job after any complete exchange.  All map nodes use the same dividers although each
      computed its own; every reducer's part is sorted; over all reducers Reduce is handed exactly
      what the map nodes produced; and which reducer gets what is known, so that equal hashes meet
      exactly when their seats agree. */
  method RunJob(f: Format, mappers: seq<seq<seq<Item>>>, hs: seq<Histogram>, rank: Item -> int, top: int,
                handles: seq<int>, bufferSize: nat, nodes: seq<int>, net: E.Net<Histogram>,
                ghost c: E.Setting<Histogram>, ghost s: E.Net<Histogram>, ghost moves: seq<E.Move>)
    returns (outputs: seq<seq<Item>>)
    requires mappers != [] && handles != [] && Unique(handles) && AllSound(f, mappers, rank, top)
    requires AllDescribe(hs, Firsts(mappers), rank) && Exchanged(hs, c, s, moves, net)
    requires c.nodes == nodes && FromOne(nodes)
    ensures |outputs| == |handles| && KWayMerge.AllSorted(outputs, rank)
    ensures KWayMerge.Union(outputs) == KWayMerge.Union(R.AllChunks(mappers))
    ensures var d, all := DividersOf(hs, |handles|, top), R.AllChunks(mappers);
            && R.AllDivisible(all, d, rank)
            && (forall r :: 0 <= r < |d| ==> multiset(outputs[r]) == R.Handed(all, d, rank, r))
            && (R.Meet(Multisets(outputs), rank) <==> R.SeatsAgree(all, d, rank))
  {
    hide Exchanged, DividersOf, Good, AllSound, KWayMerge.AllSorted, KWayMerge.Union, R.Job, R.Handed;
    hide R.AllDivisible, R.AllChunks;
    hide R.Meet, R.SeatsAgree, Unique;
    HistogramsGood(f, mappers, hs, rank, top);
    var ds := AllDividers(hs, |handles|, top, nodes, net, c, s, moves);
    JobReady(f, mappers, ds[0], rank, top);
    outputs := R.MapReduce(f, mappers, ds[0], rank, handles, bufferSize);
    ChunksSorted(f, mappers, rank, top);
    R.MeetIffSeatsAgree(R.AllChunks(mappers), ds[0], rank, Multisets(outputs));
  }

  ghost function Multisets(outputs: seq<seq<Item>>): (r: seq<multiset<Item>>)
    ensures |r| == |outputs| && forall i :: 0 <= i < |r| ==> r[i] == multiset(outputs[i])
  {
    seq(|outputs|, i requires 0 <= i < |outputs| => multiset(outputs[i]))
  }

  lemma {:induction false} ChunksSorted(f: Format, mappers: seq<seq<seq<Item>>>, rank: Item -> int, top: int)
    requires AllSound(f, mappers, rank, top)
    ensures forall c :: 0 <= c < |R.AllChunks(mappers)| ==> Sorted(R.AllChunks(mappers)[c], rank)
  {
    hide Sendable, Sorted;
    if mappers != [] {
      var n := |mappers| - 1;
      ChunksSorted(f, mappers[..n], rank, top);
      assert forall c :: 0 <= c < |mappers[n]| ==> Sound(f, mappers[n][c], rank, top);
    }
  }

  lemma AllAscend(hs: seq<Histogram>, bufs: seq<seq<int>>)
    requires AllClose(hs, bufs)
    ensures forall m :: 0 <= m < |bufs| ==> Ascending(bufs[m])
  {
  }

  /** The load that the dividers of a job promise, in items of the first chunks: at least k + 1 even
      shares at or below the k-th divider taken from the samples, at most the last block above the last
      of them, and strictly below the k-th fewer than k + 1 even shares, each with the largest step on
      top, and one step of each histogram. */
  lemma JobLoad(f: Format, mappers: seq<seq<seq<Item>>>, hs: seq<Histogram>, rank: Item -> int, top: int, count: nat,
                k: nat)
    requires AllSound(f, mappers, rank, top) && AllDescribe(hs, Firsts(mappers), rank) && count > 0
    requires forall m :: 0 <= m < |hs| ==> Close(hs[m], Ranks(mappers[m][0], rank))
    requires k < |AllCuts(hs, count)|
    ensures |AllCuts(hs, count)| < count
    ensures var bufs := RankLists(Firsts(mappers), rank);
            && AllClose(hs, bufs) && Total(hs) == Lengths(bufs)
            && ItemsUpTo(bufs, DividersOf(hs, count, top)[k]) >= (k + 1) * (Lengths(bufs) / count)
            && (k == |AllCuts(hs, count)| - 1 ==>
                  Lengths(bufs) - ItemsUpTo(bufs, DividersOf(hs, count, top)[k]) <= LastBlock(hs, count))
            && forall m: nat :: StepsUpTo(hs, m) && Lengths(bufs) / count > 0 ==>
                 ItemsUpTo(bufs, DividersOf(hs, count, top)[k] - 1) < (k + 1) * (Lengths(bufs) / count + m) + Steps(hs)
  {
    hide AllCuts, Sound, ItemsUpTo, Total, Lengths, LastBlock, Close, Good, Steps, StepsUpTo;
    HistogramsGood(f, mappers, hs, rank, top);
    CutsFacts(hs, count, top);
    var bufs := RankLists(Firsts(mappers), rank);
    assert AllClose(hs, bufs);
    DividersBound(hs, bufs, count, top, k);
    AllAscend(hs, bufs);
    forall m: nat | StepsUpTo(hs, m) && Lengths(bufs) / count > 0
      ensures ItemsUpTo(bufs, DividersOf(hs, count, top)[k] - 1) < (k + 1) * (Lengths(bufs) / count + m) + Steps(hs)
    {
      DividersBoundAbove(hs, bufs, count, top, k, m);
    }
  }
}
