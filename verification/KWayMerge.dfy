/** Choosing the least current item of several sorted buffers, again and again: the heart of
    MergeBuffersToNew and of the divider calculation in lib/mapreduce/map_reduce_lib.c. */
module KWayMerge {

  import opened Orders

  /** The buffers and how much of each has been consumed. */
  ghost predicate Cursors<T>(srcs: seq<seq<T>>, pos: seq<nat>) {
    |pos| == |srcs| && forall i :: 0 <= i < |srcs| ==> pos[i] <= |srcs[i]|
  }

  predicate Open<T>(srcs: seq<seq<T>>, pos: seq<nat>, i: nat)
    requires |pos| == |srcs| && i < |srcs|
  {
    pos[i] < |srcs[i]|
  }

  /** r is where the search over the first m sources ends: -1 when they are all consumed, else
      the last one of those whose current item is least. */
  ghost predicate IsLeastOf<T>(srcs: seq<seq<T>>, pos: seq<nat>, rank: T -> int, m: nat, r: int)
    requires Cursors(srcs, pos) && m <= |srcs|
  {
    if r == -1 then forall i :: 0 <= i < m ==> !Open(srcs, pos, i)
    else
      && 0 <= r < m && Open(srcs, pos, r)
      && forall i :: 0 <= i < m && Open(srcs, pos, i) ==>
           rank(srcs[r][pos[r]]) <= rank(srcs[i][pos[i]]) && (i > r ==> rank(srcs[r][pos[r]]) < rank(srcs[i][pos[i]]))
  }

  ghost predicate IsLeast<T>(srcs: seq<seq<T>>, pos: seq<nat>, rank: T -> int, r: int)
    requires Cursors(srcs, pos)
  {
    IsLeastOf(srcs, pos, rank, |srcs|, r)
  }

  /** The search loop; a later source replaces an earlier one on equal hashes. */
  method Search<T>(srcs: seq<seq<T>>, pos: seq<nat>, rank: T -> int) returns (r: int)
    requires Cursors(srcs, pos)
    ensures IsLeast(srcs, pos, rank, r)
    ensures r == Least(srcs, pos, rank)
  {
    r := -1;
    for i := 0 to |srcs|
      invariant IsLeastOf(srcs, pos, rank, i, r)
    {
      if pos[i] < |srcs[i]| {
        assert Open(srcs, pos, i);
        if r == -1 || rank(srcs[i][pos[i]]) <= rank(srcs[r][pos[r]]) {
          r := i;
        }
      }
    }
    LeastUnique(srcs, pos, rank, r, Least(srcs, pos, rank));
  }

  function LeastOf<T>(srcs: seq<seq<T>>, pos: seq<nat>, rank: T -> int, m: nat): (r: int)
    requires Cursors(srcs, pos) && m <= |srcs|
    ensures IsLeastOf(srcs, pos, rank, m, r)
  {
    if m == 0 then -1 else
      var n := m - 1;
      var r := LeastOf(srcs, pos, rank, n);
      if Open(srcs, pos, n) && (r == -1 || rank(srcs[n][pos[n]]) <= rank(srcs[r][pos[r]])) then n else r
  }

  function Least<T>(srcs: seq<seq<T>>, pos: seq<nat>, rank: T -> int): (r: int)
    requires Cursors(srcs, pos)
    ensures IsLeast(srcs, pos, rank, r)
  {
    LeastOf(srcs, pos, rank, |srcs|)
  }

  lemma LeastUnique<T>(srcs: seq<seq<T>>, pos: seq<nat>, rank: T -> int, r: int, r': int)
    requires Cursors(srcs, pos) && IsLeast(srcs, pos, rank, r) && IsLeast(srcs, pos, rank, r')
    ensures r == r'
  {
  }

  function Remaining<T>(srcs: seq<seq<T>>, pos: seq<nat>): nat
    requires Cursors(srcs, pos)
  {
    if srcs == [] then 0 else
      var n := |srcs| - 1;
      Remaining(srcs[..n], pos[..n]) + |srcs[n]| - pos[n]
  }

  lemma {:induction false} RemainingStep<T>(srcs: seq<seq<T>>, pos: seq<nat>, i: nat)
    requires Cursors(srcs, pos) && i < |srcs| && Open(srcs, pos, i)
    ensures Cursors(srcs, pos[i := pos[i] + 1])
    ensures Remaining(srcs, pos[i := pos[i] + 1]) == Remaining(srcs, pos) - 1
  {
    var n := |srcs| - 1;
    if i < n {
      RemainingStep(srcs[..n], pos[..n], i);
      assert pos[i := pos[i] + 1][..n] == pos[..n][i := pos[i] + 1];
    } else {
      assert pos[i := pos[i] + 1][..n] == pos[..n];
    }
  }

  function Advance(pos: seq<nat>, i: nat): seq<nat>
    requires i < |pos|
  {
    pos[i := pos[i] + 1]
  }

  /** The order in which items are consumed, as (source, place) pairs. */
  function Picks<T>(srcs: seq<seq<T>>, pos: seq<nat>, rank: T -> int): seq<(nat, nat)>
    requires Cursors(srcs, pos)
    decreases Remaining(srcs, pos)
  {
    var r := Least(srcs, pos, rank);
    if r == -1 then [] else
      RemainingStep(srcs, pos, r);
      [(r as nat, pos[r])] + Picks(srcs, Advance(pos, r), rank)
  }

  ghost predicate Valid<T>(srcs: seq<seq<T>>, ps: seq<(nat, nat)>) {
    forall k :: 0 <= k < |ps| ==> ps[k].0 < |srcs| && ps[k].1 < |srcs[ps[k].0]|
  }

  lemma {:induction false} PicksValid<T>(srcs: seq<seq<T>>, pos: seq<nat>, rank: T -> int)
    requires Cursors(srcs, pos)
    ensures Valid(srcs, Picks(srcs, pos, rank)) && |Picks(srcs, pos, rank)| == Remaining(srcs, pos)
    decreases Remaining(srcs, pos)
  {
    var r := Least(srcs, pos, rank);
    if r != -1 {
      RemainingStep(srcs, pos, r);
      PicksValid(srcs, Advance(pos, r), rank);
    } else {
      NothingRemains(srcs, pos);
    }
  }

  lemma {:induction false} NothingRemains<T>(srcs: seq<seq<T>>, pos: seq<nat>)
    requires Cursors(srcs, pos) && forall i :: 0 <= i < |srcs| ==> !Open(srcs, pos, i)
    ensures Remaining(srcs, pos) == 0 && Rest(srcs, pos) == multiset{}
  {
    if srcs != [] {
      var n := |srcs| - 1;
      assert forall i :: 0 <= i < n ==> !Open(srcs, pos, i) && !Open(srcs[..n], pos[..n], i);
      assert !Open(srcs, pos, n);
      NothingRemains(srcs[..n], pos[..n]);
    }
  }

  /** All items not consumed yet. */
  ghost function Rest<T>(srcs: seq<seq<T>>, pos: seq<nat>): multiset<T>
    requires Cursors(srcs, pos)
  {
    if srcs == [] then multiset{} else
      var n := |srcs| - 1;
      Rest(srcs[..n], pos[..n]) + multiset(srcs[n][pos[n]..])
  }

  lemma SuffixStep<T>(s: seq<T>, k: nat)
    requires k < |s|
    ensures multiset(s[k..]) == multiset(s[k + 1..]) + multiset{s[k]}
  {
    assert s[k..] == [s[k]] + s[k + 1..];
  }

  lemma {:induction false} RestStep<T>(srcs: seq<seq<T>>, pos: seq<nat>, i: nat)
    requires Cursors(srcs, pos) && i < |srcs| && Open(srcs, pos, i)
    ensures Cursors(srcs, Advance(pos, i))
    ensures Rest(srcs, pos) == Rest(srcs, Advance(pos, i)) + multiset{srcs[i][pos[i]]}
  {
    var n := |srcs| - 1;
    if i < n {
      RestStep(srcs[..n], pos[..n], i);
      assert Advance(pos, i)[..n] == Advance(pos[..n], i);
    } else {
      assert Advance(pos, i)[..n] == pos[..n];
      SuffixStep(srcs[n], pos[n]);
    }
  }

  // ---- merging

  function Items<T>(srcs: seq<seq<T>>, ps: seq<(nat, nat)>): seq<T>
    requires Valid(srcs, ps)
  {
    if ps == [] then [] else [srcs[ps[0].0][ps[0].1]] + Items(srcs, ps[1..])
  }

  ghost predicate AllSorted<T>(srcs: seq<seq<T>>, rank: T -> int) {
    forall i :: 0 <= i < |srcs| ==> Sorted(srcs[i], rank)
  }

  ghost predicate AtLeast<T>(s: seq<T>, rank: T -> int, low: int) {
    forall i :: 0 <= i < |s| ==> rank(s[i]) >= low
  }

  /** No unconsumed item ranks below low. */
  ghost predicate RestAtLeast<T>(srcs: seq<seq<T>>, pos: seq<nat>, rank: T -> int, low: int)
    requires Cursors(srcs, pos)
  {
    forall i, k :: 0 <= i < |srcs| && pos[i] <= k < |srcs[i]| ==> rank(srcs[i][k]) >= low
  }

  lemma LeastBounds<T>(srcs: seq<seq<T>>, pos: seq<nat>, rank: T -> int, r: nat)
    requires Cursors(srcs, pos) && AllSorted(srcs, rank) && r < |srcs| && IsLeast(srcs, pos, rank, r)
    ensures Cursors(srcs, Advance(pos, r)) && RestAtLeast(srcs, Advance(pos, r), rank, rank(srcs[r][pos[r]]))
  {
    forall i, k | 0 <= i < |srcs| && Advance(pos, r)[i] <= k < |srcs[i]|
      ensures rank(srcs[i][k]) >= rank(srcs[r][pos[r]])
    {
      assert Open(srcs, pos, i) && Sorted(srcs[i], rank);
      assert pos[i] <= k;
    }
  }

  lemma {:induction false} PicksSorted<T>(srcs: seq<seq<T>>, pos: seq<nat>, rank: T -> int, low: int)
    requires Cursors(srcs, pos) && AllSorted(srcs, rank) && RestAtLeast(srcs, pos, rank, low)
    ensures var ps := Picks(srcs, pos, rank);
            Valid(srcs, ps) && Sorted(Items(srcs, ps), rank) && AtLeast(Items(srcs, ps), rank, low)
    decreases Remaining(srcs, pos)
  {
    PicksValid(srcs, pos, rank);
    var r := Least(srcs, pos, rank);
    if r != -1 {
      RemainingStep(srcs, pos, r);
      LeastBounds(srcs, pos, rank, r);
      var pos' := Advance(pos, r);
      PicksSorted(srcs, pos', rank, rank(srcs[r][pos[r]]));
      PicksValid(srcs, pos', rank);
      var tail := Items(srcs, Picks(srcs, pos', rank));
      assert Picks(srcs, pos, rank)[1..] == Picks(srcs, pos', rank);
      assert Items(srcs, Picks(srcs, pos, rank)) == [srcs[r][pos[r]]] + tail;
      assert rank(srcs[r][pos[r]]) >= low;
    }
  }

  lemma {:induction false} PicksAll<T>(srcs: seq<seq<T>>, pos: seq<nat>, rank: T -> int)
    requires Cursors(srcs, pos)
    ensures Valid(srcs, Picks(srcs, pos, rank))
    ensures multiset(Items(srcs, Picks(srcs, pos, rank))) == Rest(srcs, pos)
    decreases Remaining(srcs, pos)
  {
    PicksValid(srcs, pos, rank);
    var r := Least(srcs, pos, rank);
    if r == -1 {
      NothingRemains(srcs, pos);
    } else {
      RemainingStep(srcs, pos, r);
      RestStep(srcs, pos, r);
      var pos' := Advance(pos, r);
      PicksAll(srcs, pos', rank);
      assert Picks(srcs, pos, rank)[1..] == Picks(srcs, pos', rank);
    }
  }

  function Start<T>(srcs: seq<seq<T>>): (pos: seq<nat>)
    ensures Cursors(srcs, pos) && forall i :: 0 <= i < |pos| ==> pos[i] == 0
  {
    seq(|srcs|, i => 0)
  }

  ghost function Union<T>(srcs: seq<seq<T>>): multiset<T> {
    if srcs == [] then multiset{} else Union(srcs[..|srcs| - 1]) + multiset(srcs[|srcs| - 1])
  }

  lemma {:induction false} RestAtStart<T>(srcs: seq<seq<T>>, pos: seq<nat>)
    requires Cursors(srcs, pos) && forall i :: 0 <= i < |pos| ==> pos[i] == 0
    ensures Rest(srcs, pos) == Union(srcs)
  {
    if srcs != [] {
      var n := |srcs| - 1;
      RestAtStart(srcs[..n], pos[..n]);
      assert srcs[n][0..] == srcs[n];
    }
  }

  ghost function Merged<T>(srcs: seq<seq<T>>, pos: seq<nat>, rank: T -> int): seq<T>
    requires Cursors(srcs, pos)
  {
    PicksValid(srcs, pos, rank);
    Items(srcs, Picks(srcs, pos, rank))
  }

  lemma MergedStep<T>(srcs: seq<seq<T>>, pos: seq<nat>, rank: T -> int)
    requires Cursors(srcs, pos)
    ensures var r := Least(srcs, pos, rank);
            if r == -1 then Merged(srcs, pos, rank) == []
            else && Cursors(srcs, Advance(pos, r))
                 && Merged(srcs, pos, rank) == [srcs[r][pos[r]]] + Merged(srcs, Advance(pos, r), rank)
                 && Remaining(srcs, Advance(pos, r)) < Remaining(srcs, pos)
  {
    hide Cursors, IsLeast, Least, Remaining, Valid;
    var r := Least(srcs, pos, rank);
    PicksValid(srcs, pos, rank);
    if r != -1 {
      Current(srcs, pos, rank, r);
      RemainingStep(srcs, pos, r);
      PicksValid(srcs, Advance(pos, r), rank);
      assert Picks(srcs, pos, rank)[1..] == Picks(srcs, Advance(pos, r), rank);
    }
  }

  lemma MergedMeaning<T>(srcs: seq<seq<T>>, rank: T -> int)
    ensures multiset(Merged(srcs, Start(srcs), rank)) == Union(srcs)
    ensures AllSorted(srcs, rank) ==> Sorted(Merged(srcs, Start(srcs), rank), rank)
  {
    PicksAll(srcs, Start(srcs), rank);
    RestAtStart(srcs, Start(srcs));
    if AllSorted(srcs, rank) {
      var low := Bottom(srcs, rank);
      PicksSorted(srcs, Start(srcs), rank, low);
    }
  }

  /** MergeBuffersToNew: any number of sorted buffers become one sorted buffer with exactly
      their items. */
  method Merge<T>(srcs: seq<seq<T>>, rank: T -> int) returns (dest: seq<T>)
    ensures multiset(dest) == Union(srcs)
    ensures AllSorted(srcs, rank) ==> Sorted(dest, rank)
    ensures dest == Merged(srcs, Start(srcs), rank)
  {
    hide Merged, Cursors, Sorted, AllSorted, Union, Least, IsLeast, Remaining;
    var pos := Start(srcs);
    dest := [];
    MergedMeaning(srcs, rank);
    ghost var all := Merged(srcs, pos, rank);
    var m := Search(srcs, pos, rank);
    while m != -1
      invariant Cursors(srcs, pos) && m == Least(srcs, pos, rank)
      invariant dest + Merged(srcs, pos, rank) == all
      decreases Remaining(srcs, pos)
    {
      MergedStep(srcs, pos, rank);
      Current(srcs, pos, rank, m);
      Appended(dest, srcs[m][pos[m]], Merged(srcs, Advance(pos, m), rank));
      dest := dest + [srcs[m][pos[m]]];
      pos := pos[m := pos[m] + 1];
      m := Search(srcs, pos, rank);
    }
    MergedStep(srcs, pos, rank);
    assert dest + [] == dest;
  }

  lemma Appended<T>(s: seq<T>, x: T, rest: seq<T>)
    ensures (s + [x]) + rest == s + ([x] + rest)
  {
  }

  lemma Current<T>(srcs: seq<seq<T>>, pos: seq<nat>, rank: T -> int, m: int)
    requires Cursors(srcs, pos) && m == Least(srcs, pos, rank) && m != -1
    ensures 0 <= m < |srcs| == |pos| && pos[m] < |srcs[m]|
  {
  }

  /** Some rank below which no item lies. */
  lemma Bottom<T>(srcs: seq<seq<T>>, rank: T -> int) returns (low: int)
    requires AllSorted(srcs, rank)
    ensures RestAtLeast(srcs, Start(srcs), rank, low)
  {
    low := 0;
    var i := 0;
    while i < |srcs|
      invariant 0 <= i <= |srcs|
      invariant forall a, k :: 0 <= a < i && 0 <= k < |srcs[a]| ==> rank(srcs[a][k]) >= low
    {
      assert Sorted(srcs[i], rank);
      if srcs[i] != [] && rank(srcs[i][0]) < low {
        low := rank(srcs[i][0]);
      }
      i := i + 1;
    }
  }
}
