/** DistributeDataIntoBaskets of lib/mapreduce/map_reduce_lib.c: cutting a sorted buffer into
    one run of items per reducer. */
module Baskets {

  import opened Orders

  datatype Basket = Basket(start: nat, count: nat)

  /** The dividers rise and the last one is not below any item. */
  ghost predicate Fit<T>(items: seq<T>, d: seq<int>, rank: T -> int) {
    && d != [] && Ascending(d)
    && forall i :: 0 <= i < |items| ==> rank(items[i]) <= d[|d| - 1]
  }

  /** The first item at or behind place j that exceeds a divider. */
  function NextAbove<T>(items: seq<T>, rank: T -> int, divider: int, j: nat): (e: nat)
    requires j <= |items|
    ensures j <= e <= |items|
    ensures forall i :: j <= i < e ==> rank(items[i]) <= divider
    ensures e < |items| ==> rank(items[e]) > divider
    decreases |items| - j
  {
    if j == |items| || rank(items[j]) > divider then j else NextAbove(items, rank, divider, j + 1)
  }

  /** The baskets from number k on, which starts at place start.  The item that opened basket
      k > 0 belongs to it without having been compared with divider k. */
  function Fill<T>(items: seq<T>, d: seq<int>, rank: T -> int, k: nat, start: nat): seq<Basket>
    requires k < |d| && start <= |items| && (k > 0 ==> start < |items|)
    decreases |d| - k
  {
    var e := NextAbove(items, rank, d[k], if k == 0 then start else start + 1);
    [Basket(start, e - start)] +
    if e == |items| || k + 1 == |d| then [] else Fill(items, d, rank, k + 1, e)
  }

  function Padded(bs: seq<Basket>, n: nat): seq<Basket>
    requires |bs| <= n
  {
    bs + seq(n - |bs|, i => Basket(0, 0))
  }

  /** Everything compared so far with divider k, up to place j, does not exceed it. */
  ghost predicate Below<T>(items: seq<T>, d: seq<int>, rank: T -> int, k: nat, start: nat, j: nat)
    requires k < |d| && j <= |items|
  {
    forall i :: (if k == 0 then start else start + 1) <= i < j ==> rank(items[i]) <= d[k]
  }

  lemma FillStep<T>(items: seq<T>, d: seq<int>, rank: T -> int, k: nat, start: nat, j: nat)
    requires Fit(items, d, rank) && k < |d| && start <= j <= |items| && (k > 0 ==> start < j)
    requires Below(items, d, rank, k, start, j) && (j < |items| ==> rank(items[j]) > d[k])
    ensures j < |items| ==> k + 1 < |d|
    ensures Fill(items, d, rank, k, start) ==
            [Basket(start, j - start)] + if j == |items| then [] else Fill(items, d, rank, k + 1, j)
  {
    hide Fill, NextAbove;
    var e := NextAbove(items, rank, d[k], if k == 0 then start else start + 1);
    assert j < |items| ==> rank(items[j]) > d[k];
    assert e == j;
    FillFirst(items, d, rank, k, start, e);
  }

  /** The distribution loop. */
  method Distribute<T>(items: seq<T>, d: seq<int>, rank: T -> int) returns (baskets: seq<Basket>)
    requires Fit(items, d, rank)
    ensures |Fill(items, d, rank, 0, 0)| <= |d|
    ensures baskets == Padded(Fill(items, d, rank, 0, 0), |d|)
  {
    hide Fill, Padded, Below, Fit;
    var divider := FirstDivider(items, d, rank);
    FillShort(items, d, rank, 0, 0);
    ghost var all := Fill(items, d, rank, 0, 0);
    baskets := [];
    var start, count := 0, 0;
    BelowStart(items, d, rank);
    assert [] + all == all;
    var j := 0;
    while j < |items| + 1
      invariant 0 <= j <= |items| + 1
      invariant j > |items| ==> baskets == all
      invariant j <= |items| ==> |baskets| < |d| && divider == d[|baskets|]
      invariant j <= |items| ==> start + count == j && (|baskets| > 0 ==> start < j)
      invariant j <= |items| ==> Below(items, d, rank, |baskets|, start, j)
      invariant j <= |items| ==> start <= |items| && (|baskets| > 0 ==> start < |items|)
      invariant j <= |items| ==> baskets + Fill(items, d, rank, |baskets|, start) == all
    {
      var switch := true;
      if j < |items| {
        if rank(items[j]) <= divider {
          switch := false;
          count := count + 1;
        }
      }
      if switch {
        FillStep(items, d, rank, |baskets|, start, j);
        BelowOpened(items, d, rank, |baskets|, j);
        Shift(baskets, Basket(start, count), if j == |items| then [] else Fill(items, d, rank, |baskets| + 1, j));
        baskets := baskets + [Basket(start, count)];
        if |baskets| < |d| {
          divider := d[|baskets|];
        }
        start := j;
        count := 1;
      } else {
        BelowNext(items, d, rank, |baskets|, start, j);
      }
      j := j + 1;
    }
    baskets := Pad(all, baskets, |d|);
  }

  method FirstDivider<T>(ghost items: seq<T>, d: seq<int>, ghost rank: T -> int) returns (x: int)
    requires Fit(items, d, rank)
    ensures d != [] && x == d[0]
  {
    x := d[0];
  }

  lemma Shift(bs: seq<Basket>, b: Basket, rest: seq<Basket>)
    ensures bs + ([b] + rest) == (bs + [b]) + rest
    ensures rest == [] ==> bs + ([b] + rest) == bs + [b]
  {
  }

  lemma BelowStart<T>(items: seq<T>, d: seq<int>, rank: T -> int)
    requires d != []
    ensures Below(items, d, rank, 0, 0, 0)
  {
  }

  lemma BelowNext<T>(items: seq<T>, d: seq<int>, rank: T -> int, k: nat, start: nat, j: nat)
    requires k < |d| && j < |items| && Below(items, d, rank, k, start, j) && rank(items[j]) <= d[k]
    ensures Below(items, d, rank, k, start, j + 1)
  {
  }

  lemma BelowOpened<T>(items: seq<T>, d: seq<int>, rank: T -> int, k: nat, j: nat)
    requires j <= |items|
    ensures k + 1 < |d| && j < |items| ==> Below(items, d, rank, k + 1, j, j + 1)
  {
  }

  /** The loop that gives the remaining reducers an empty basket. */
  method Pad(ghost all: seq<Basket>, bs: seq<Basket>, n: nat) returns (baskets: seq<Basket>)
    requires bs == all && |all| <= n
    ensures baskets == Padded(all, n)
  {
    baskets := bs;
    while |baskets| < n
      invariant |all| <= |baskets| <= n && baskets == Padded(all, |baskets|)
    {
      baskets := baskets + [Basket(0, 0)];
    }
  }

  lemma {:induction false} FillShort<T>(items: seq<T>, d: seq<int>, rank: T -> int, k: nat, start: nat)
    requires k < |d| && start <= |items| && (k > 0 ==> start < |items|)
    ensures 0 < |Fill(items, d, rank, k, start)| <= |d| - k
    decreases |d| - k
  {
    var e := NextAbove(items, rank, d[k], if k == 0 then start else start + 1);
    if e < |items| && k + 1 < |d| {
      FillShort(items, d, rank, k + 1, e);
    }
  }

  // ---- what the baskets hold

  /** One behind another, from place from to place to. */
  ghost predicate Contiguous(bs: seq<Basket>, from: nat, to: nat) {
    if bs == [] then from == to
    else bs[0].start == from && Contiguous(bs[1..], from + bs[0].count, to)
  }

  function Slice<T>(items: seq<T>, b: Basket): seq<T>
    requires b.start + b.count <= |items|
  {
    items[b.start..b.start + b.count]
  }

  ghost predicate Inside(bs: seq<Basket>, n: nat) {
    forall i :: 0 <= i < |bs| ==> bs[i].start + bs[i].count <= n
  }

  ghost function Contents<T>(items: seq<T>, bs: seq<Basket>): multiset<T>
    requires Inside(bs, |items|)
  {
    if bs == [] then multiset{} else multiset(Slice(items, bs[0])) + Contents(items, bs[1..])
  }

  /** The baskets are a partition: they follow one another without gap or overlap. */
  lemma {:induction false} FillContiguous<T>(items: seq<T>, d: seq<int>, rank: T -> int, k: nat, start: nat)
    requires Fit(items, d, rank) && k < |d| && start <= |items| && (k > 0 ==> start < |items|)
    ensures Contiguous(Fill(items, d, rank, k, start), start, |items|)
    decreases |d| - k
  {
    var e := NextAbove(items, rank, d[k], if k == 0 then start else start + 1);
    if e < |items| {
      assert k + 1 < |d|;
      FillContiguous(items, d, rank, k + 1, e);
    }
  }

  lemma {:induction false} ContiguousInside(bs: seq<Basket>, from: nat, to: nat)
    requires Contiguous(bs, from, to)
    ensures from <= to && Inside(bs, to)
    decreases |bs|
  {
    if bs != [] {
      ContiguousInside(bs[1..], from + bs[0].count, to);
      assert forall i :: 0 < i < |bs| ==> bs[i] == bs[1..][i - 1];
    }
  }

  lemma {:induction false} ContiguousContents<T>(items: seq<T>, bs: seq<Basket>, from: nat)
    requires Contiguous(bs, from, |items|)
    ensures from <= |items| && Inside(bs, |items|) && Contents(items, bs) == multiset(items[from..])
    decreases |bs|
  {
    ContiguousInside(bs, from, |items|);
    if bs != [] {
      var e := from + bs[0].count;
      ContiguousContents(items, bs[1..], e);
      ContiguousInside(bs[1..], e, |items|);
      assert items[from..] == Slice(items, bs[0]) + items[e..];
    }
  }

  lemma {:induction false} ContentsConcat<T>(items: seq<T>, a: seq<Basket>, b: seq<Basket>)
    requires Inside(a, |items|) && Inside(b, |items|)
    ensures Inside(a + b, |items|) && Contents(items, a + b) == Contents(items, a) + Contents(items, b)
    decreases |a|
  {
    if a == [] {
      assert a + b == b;
    } else {
      assert (a + b)[1..] == a[1..] + b;
      ContentsConcat(items, a[1..], b);
    }
  }

  lemma ContentsSnoc<T>(items: seq<T>, a: seq<Basket>, b: Basket)
    requires Inside(a, |items|) && b.start + b.count <= |items|
    ensures Inside(a + [b], |items|) && Contents(items, a + [b]) == Contents(items, a) + multiset(Slice(items, b))
  {
    ContentsConcat(items, a, [b]);
    assert [b][1..] == [];
    assert Contents(items, [b]) == multiset(Slice(items, b));
  }

  lemma {:induction false} ContentsEmpty<T>(items: seq<T>, n: nat)
    ensures var z := seq(n, i => Basket(0, 0)); Inside(z, |items|) && Contents(items, z) == multiset{}
  {
    var z := seq(n, i => Basket(0, 0));
    if n > 0 {
      ContentsEmpty(items, n - 1);
      assert z[1..] == seq(n - 1, i => Basket(0, 0));
    }
  }

  lemma NotNone<T>(items: seq<T>, d: seq<int>, rank: T -> int)
    requires Fit(items, d, rank)
    ensures d != []
  {
  }

  /** Nothing is lost and nothing sent twice: the baskets together hold the buffer's items. */
  lemma DistributeConserves<T>(items: seq<T>, d: seq<int>, rank: T -> int)
    requires Fit(items, d, rank)
    ensures |Fill(items, d, rank, 0, 0)| <= |d|
    ensures var bs := Padded(Fill(items, d, rank, 0, 0), |d|);
            |bs| == |d| && Inside(bs, |items|) && Contents(items, bs) == multiset(items)
  {
    hide Fill, Contents, Contiguous, Fit, NextAbove;
    NotNone(items, d, rank);
    var f := Fill(items, d, rank, 0, 0);
    FillShort(items, d, rank, 0, 0);
    FillContiguous(items, d, rank, 0, 0);
    ContiguousContents(items, f, 0);
    ContentsEmpty(items, |d| - |f|);
    ContentsConcat(items, f, seq(|d| - |f|, i => Basket(0, 0)));
    assert items[0..] == items;
  }

  /** Everything in basket k > 0 lies above divider k - 1; everything in basket k but the item
      that opened it lies not above divider k. */
  lemma {:induction false} FillBounds<T>(items: seq<T>, d: seq<int>, rank: T -> int, k: nat, start: nat, i: nat, j: nat)
    requires Fit(items, d, rank) && Sorted(items, rank)
    requires k < |d| && start <= |items| && (k > 0 ==> start < |items| && rank(items[start]) > d[k - 1])
    requires var bs := Fill(items, d, rank, k, start);
             i < |bs| && bs[i].start <= j < bs[i].start + bs[i].count <= |items|
    ensures k + i < |d|
    ensures k + i > 0 ==> rank(items[j]) > d[k + i - 1]
    ensures k + i == 0 || j > Fill(items, d, rank, k, start)[i].start ==> rank(items[j]) <= d[k + i]
    decreases |d| - k
  {
    hide Fit, Sorted, Fill, NextAbove;
    var e := NextAbove(items, rank, d[k], if k == 0 then start else start + 1);
    FillShort(items, d, rank, k, start);
    FillFirst(items, d, rank, k, start, e);
    if i > 0 {
      FillBounds(items, d, rank, k + 1, e, i - 1, j);
    } else {
      Following(items, rank, start, j);
    }
  }

  lemma FillFirst<T>(items: seq<T>, d: seq<int>, rank: T -> int, k: nat, start: nat, e: nat)
    requires k < |d| && start <= |items| && (k > 0 ==> start < |items|)
    requires e == NextAbove(items, rank, d[k], if k == 0 then start else start + 1)
    ensures Fill(items, d, rank, k, start) ==
            [Basket(start, e - start)] + if e == |items| || k + 1 == |d| then [] else Fill(items, d, rank, k + 1, e)
  {
    hide NextAbove;
  }

  lemma Following<T>(items: seq<T>, rank: T -> int, i: nat, j: nat)
    requires Sorted(items, rank) && i <= j < |items|
    ensures rank(items[i]) <= rank(items[j])
  {
  }

  // ---- where an item belongs

  /** The reducer that the dividers assign to a hash: the first whose divider is not below it. */
  function Home(d: seq<int>, h: int): (k: nat)
    requires d != [] && h <= d[|d| - 1]
    ensures k < |d| && h <= d[k] && forall i :: 0 <= i < k ==> h > d[i]
  {
    if h <= d[0] then 0 else 1 + Home(d[1..], h)
  }

  lemma HomeAt(d: seq<int>, h: int, k: nat)
    requires Ascending(d) && k < |d| && h <= d[k] && (k > 0 ==> h > d[k - 1])
    ensures h <= d[|d| - 1] && Home(d, h) == k
  {
  }

  lemma HomeMonotone(d: seq<int>, h: int, h': int)
    requires Ascending(d) && d != [] && h <= h' <= d[|d| - 1]
    ensures Home(d, h) <= Home(d, h')
  {
  }

  /** Every item of the basket list that begins with basket k is in its home basket. */
  ghost predicate AtHome<T>(items: seq<T>, d: seq<int>, rank: T -> int, bs: seq<Basket>, k: nat)
    requires Fit(items, d, rank)
  {
    forall i, j :: 0 <= i < |bs| && bs[i].start <= j < bs[i].start + bs[i].count && j < |items| ==>
      Home(d, rank(items[j])) == k + i
  }

  ghost predicate Visited<T>(items: seq<T>, d: seq<int>, rank: T -> int, k: nat)
    requires Fit(items, d, rank)
  {
    exists j :: 0 <= j < |items| && Home(d, rank(items[j])) == k
  }

  /** Every reducer range between the first and that of the last item holds an item. */
  ghost predicate NoGap<T>(items: seq<T>, d: seq<int>, rank: T -> int)
    requires Fit(items, d, rank)
  {
    items != [] ==> forall k :: 1 <= k < Home(d, rank(items[|items| - 1])) ==> Visited(items, d, rank, k)
  }

  /** Two equal hashes in one buffer can end up at two different reducers. */
  lemma SplitKey()
    ensures Fit([5, 5], [1, 2, 9], x => x) && Sorted([5, 5], x => x)
    ensures Fill([5, 5], [1, 2, 9], x => x, 0, 0) == [Basket(0, 0), Basket(0, 1), Basket(1, 1)]
  {
    var items, d, rank := [5, 5], [1, 2, 9], (x: int) => x;
    assert NextAbove(items, rank, d[0], 0) == 0;
    assert NextAbove(items, rank, d[1], 1) == 1;
    assert NextAbove(items, rank, d[2], 2) == 2;
    assert Fill(items, d, rank, 2, 1) == [Basket(1, 1)];
    assert Fill(items, d, rank, 1, 0) == [Basket(0, 1), Basket(1, 1)];
  }

  ghost predicate HomeRun<T>(items: seq<T>, d: seq<int>, rank: T -> int, b: Basket, k: nat)
    requires Fit(items, d, rank)
  {
    forall j :: b.start <= j < b.start + b.count && j < |items| ==> Home(d, rank(items[j])) == k
  }

  lemma AtHomeCons<T>(items: seq<T>, d: seq<int>, rank: T -> int, b: Basket, rest: seq<Basket>, k: nat)
    requires Fit(items, d, rank)
    ensures AtHome(items, d, rank, [b] + rest, k) <==>
            HomeRun(items, d, rank, b, k) && AtHome(items, d, rank, rest, k + 1)
  {
    hide Home;
    var bs := [b] + rest;
    assert forall i :: 0 <= i < |rest| ==> rest[i] == bs[i + 1];
    if AtHome(items, d, rank, bs, k) {
      forall j | b.start <= j < b.start + b.count && j < |items|
        ensures Home(d, rank(items[j])) == k
      {
        assert bs[0] == b && Home(d, rank(items[j])) == k + 0;
      }
      forall i, j | 0 <= i < |rest| && rest[i].start <= j < rest[i].start + rest[i].count && j < |items|
        ensures Home(d, rank(items[j])) == k + 1 + i
      {
        assert bs[i + 1] == rest[i] && Home(d, rank(items[j])) == k + (i + 1);
      }
    }
    if HomeRun(items, d, rank, b, k) && AtHome(items, d, rank, rest, k + 1) {
      forall i, j | 0 <= i < |bs| && bs[i].start <= j < bs[i].start + bs[i].count && j < |items|
        ensures Home(d, rank(items[j])) == k + i
      {
        if i > 0 {
          assert bs[i] == rest[i - 1] && Home(d, rank(items[j])) == k + 1 + (i - 1);
        }
      }
    }
  }

  lemma FirstRun<T>(items: seq<T>, d: seq<int>, rank: T -> int, k: nat, start: nat, e: nat)
    requires Fit(items, d, rank) && Sorted(items, rank)
    requires k < |d| && start <= e <= |items| && Below(items, d, rank, k, start, e)
    requires k > 0 ==> start < |items| && Home(d, rank(items[start])) == k
    ensures HomeRun(items, d, rank, Basket(start, e - start), k)
  {
    hide Sorted, Home;
    forall j | start <= j < e
      ensures Home(d, rank(items[j])) == k
    {
      if k > 0 {
        Following(items, rank, start, j);
      }
      HomeAt(d, rank(items[j]), k);
    }
  }

  lemma {:induction false} GapFreeAtHome<T>(items: seq<T>, d: seq<int>, rank: T -> int, k: nat, start: nat)
    requires Fit(items, d, rank) && Sorted(items, rank) && NoGap(items, d, rank)
    requires k < |d| && start <= |items| && (k == 0 ==> start == 0)
    requires k > 0 ==> start < |items| && Home(d, rank(items[start])) == k
    ensures AtHome(items, d, rank, Fill(items, d, rank, k, start), k)
    decreases |d| - k
  {
    hide Sorted, NoGap, AtHome, HomeRun, Home;
    var e := NextAbove(items, rank, d[k], if k == 0 then start else start + 1);
    FirstRun(items, d, rank, k, start, e);
    AtHomeCons(items, d, rank, Basket(start, e - start), [], k);
    NoBaskets(items, d, rank, k + 1);
    if e < |items| {
      assert e > 0 ==> rank(items[e - 1]) <= d[k] by {
        if e > 0 && k > 0 && e == start + 1 {
          assert rank(items[start]) <= d[Home(d, rank(items[start]))];
        }
      }
      NextRange(items, d, rank, k, e);
      GapFreeAtHome(items, d, rank, k + 1, e);
      AtHomeCons(items, d, rank, Basket(start, e - start), Fill(items, d, rank, k + 1, e), k);
    }
  }

  lemma NoBaskets<T>(items: seq<T>, d: seq<int>, rank: T -> int, k: nat)
    requires Fit(items, d, rank)
    ensures AtHome(items, d, rank, [], k)
  {
  }

  lemma HomeAbove(d: seq<int>, h: int, k: nat)
    requires Ascending(d) && k < |d| && d[k] < h <= d[|d| - 1]
    ensures Home(d, h) > k
  {
    var m := Home(d, h);
    assert d[if m <= k then m else k] <= d[k];
  }

  /** Between two neighbours on either side of divider k no range can be visited. */
  lemma Skipped<T>(items: seq<T>, d: seq<int>, rank: T -> int, k: nat, e: nat, j: nat)
    requires Fit(items, d, rank) && Sorted(items, rank) && k < |d| && e < |items| && j < |items|
    requires e > 0 ==> rank(items[e - 1]) <= d[k]
    ensures Home(d, rank(items[j])) <= k || Home(d, rank(items[j])) >= Home(d, rank(items[e]))
  {
    if j < e {
      assert rank(items[j]) <= rank(items[e - 1]) <= d[k];
    } else {
      assert rank(items[e]) <= rank(items[j]);
      HomeMonotone(d, rank(items[e]), rank(items[j]));
    }
  }

  /** Without a gap, the first item above divider k belongs to range k + 1. */
  lemma NextRange<T>(items: seq<T>, d: seq<int>, rank: T -> int, k: nat, e: nat)
    requires Fit(items, d, rank) && Sorted(items, rank) && NoGap(items, d, rank)
    requires k < |d| && e < |items| && rank(items[e]) > d[k]
    requires e > 0 ==> rank(items[e - 1]) <= d[k]
    ensures k + 1 < |d| && Home(d, rank(items[e])) == k + 1
  {
    var h := Home(d, rank(items[e]));
    HomeAbove(d, rank(items[e]), k);
    var last := |items| - 1;
    assert rank(items[e]) <= rank(items[last]);
    HomeMonotone(d, rank(items[e]), rank(items[last]));
    if h > k + 1 {
      assert Visited(items, d, rank, k + 1);
      var j :| 0 <= j < |items| && Home(d, rank(items[j])) == k + 1;
      Skipped(items, d, rank, k, e, j);
    }
  }

  lemma {:induction false} HomeVisited<T>(items: seq<T>, d: seq<int>, rank: T -> int, k: nat, start: nat, k': nat)
    requires Fit(items, d, rank) && items != []
    requires k < |d| && start <= |items| && (k == 0 ==> start == 0) && (k > 0 ==> start < |items|)
    requires AtHome(items, d, rank, Fill(items, d, rank, k, start), k)
    requires 1 <= k' && k <= k' < Home(d, rank(items[|items| - 1]))
    ensures Visited(items, d, rank, k')
    decreases |d| - k
  {
    hide AtHome, Home;
    var e := NextAbove(items, rank, d[k], if k == 0 then start else start + 1);
    var b := Basket(start, e - start);
    NotLastDivider(items, d, rank, k, e);
    AtHomeCons(items, d, rank, b, if e == |items| then [] else Fill(items, d, rank, k + 1, e), k);
    var last := Home(d, rank(items[|items| - 1]));
    assert e == |items| ==> last == k;
    if k' == k {
      assert Home(d, rank(items[start])) == k;
    } else {
      HomeVisited(items, d, rank, k + 1, e, k');
    }
  }

  lemma NotLastDivider<T>(items: seq<T>, d: seq<int>, rank: T -> int, k: nat, e: nat)
    requires Fit(items, d, rank) && k < |d| && e <= |items| && (e < |items| ==> rank(items[e]) > d[k])
    ensures e < |items| ==> k + 1 < |d|
  {
  }

  /** The code sends every item to the reducer its hash belongs to exactly when no reducer range
      below that of the last item, except the first, is empty. */
  lemma PlacedRightIffNoGap<T>(items: seq<T>, d: seq<int>, rank: T -> int)
    requires Fit(items, d, rank) && Sorted(items, rank)
    ensures AtHome(items, d, rank, Fill(items, d, rank, 0, 0), 0) <==> NoGap(items, d, rank)
  {
    if NoGap(items, d, rank) {
      GapFreeAtHome(items, d, rank, 0, 0);
    }
    if AtHome(items, d, rank, Fill(items, d, rank, 0, 0), 0) && items != [] {
      forall k | 1 <= k < Home(d, rank(items[|items| - 1]))
        ensures Visited(items, d, rank, k)
      {
        HomeVisited(items, d, rank, 0, 0, k);
      }
    }
  }
}
