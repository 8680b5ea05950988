/** Histogram sampling and the choice of reducer dividers in lib/mapreduce/map_reduce_lib.c. */
module Dividers {
  import opened KWayMerge
  import opened Orders

  /** Every step-th hash of a sorted buffer; the last sample may stand for fewer items. */
  datatype Histogram = Histogram(hashes: seq<int>, stepCommon: nat, stepLast: nat)

  const U16: nat := 0x1_0000

  /** What a histogram of these hashes looks like, whatever the step. */
  ghost predicate Describes(h: Histogram, items: seq<int>) {
    && Ascending(h.hashes) && (h.hashes == [] <==> items == [])
    && (items != [] ==> h.hashes[|h.hashes| - 1] == items[|items| - 1])
    && (|h.hashes| == 1 ==> h.stepLast == h.stepCommon)
  }

  /** How many items a histogram says it stands for. */
  function Weight(h: Histogram): nat {
    if |h.hashes| > 1 then h.stepCommon * (|h.hashes| - 1) + h.stepLast
    else if |h.hashes| == 1 then h.stepLast
    else 0
  }

  /** Where the k-th sample is taken from. */
  function Place(k: nat, step: nat): int {
    (k + 1) * step - 1
  }

  ghost predicate Samples(items: seq<int>, step: nat, hashes: seq<int>, n: nat)
    requires n <= |hashes|
  {
    forall k :: 0 <= k < n ==> 0 <= Place(k, step) < |items| && hashes[k] == items[Place(k, step)]
  }

  /** GetHistogram over the hashes of a sorted buffer.  The two step fields have 16 bits, so a
      step of zero, which stands for the whole buffer, is exact only for short buffers.  A call that
      is excluded here does not return (SamplingEnds). */
  method GetHistogram(items: seq<int>, step: nat) returns (h: Histogram)
    requires Ascending(items) && (step < U16 || |items| < U16)
    ensures Describes(h, items)
    ensures step > 0 && items != [] ==> Samples(items, step, h.hashes, |h.hashes| - 1)
    ensures h.stepLast <= h.stepCommon && (step > 0 ==> h.stepLast <= step)
    ensures step > 0 && |h.hashes| > 1 ==> h.stepCommon == step
    ensures step == 0 ==> |h.hashes| <= 1
    ensures Weight(h) == |items| <==> step > 0 || |items| < U16
  {
    if items == [] {
      return Histogram([], 0, 0);
    }
    if step == 0 {
      return Histogram([items[|items| - 1]], |items| % U16, |items| % U16);
    }
    var common := Min(step, |items|) % U16;
    var hashes, last := Sample(items, step);
    h := Histogram(hashes, common, last);
  }

  /** A buffer of 65536 equal hashes sampled with step zero stands for no items at all. */
  method ZeroStepExample() returns (h: Histogram)
    ensures Weight(h) != U16
  {
    h := GetHistogram(seq(U16, i => 5), 0);
  }

  /** How many items are left after k rounds of the sampling loop, which advances by a 16-bit number. */
  function Unsampled(n: nat, step: nat, k: nat): nat {
    if k == 0 then n
    else
      var rest := Unsampled(n, step, k - 1);
      rest - Min(step, rest) % U16
  }

  /** The loop ends if and only if the step or the number of items fits 16 bits. */
  lemma SamplingEnds(n: nat, step: nat)
    requires n > 0 && step > 0
    ensures (exists k :: Unsampled(n, step, k) == 0) <==> step < U16 || n < U16
  {
    if step < U16 {
      ShortStepsEnd(n, step, n);
    } else if n < U16 {
      assert Unsampled(n, step, 0) == n;
      assert Unsampled(n, step, 1) == 0;
    } else {
      forall k | true
        ensures Unsampled(n, step, k) >= U16
      {
        LongStepsStall(n, step, k);
      }
    }
  }

  lemma {:induction false} ShortStepsEnd(n: nat, step: nat, k: nat)
    requires 0 < step < U16 && k <= n
    ensures Unsampled(n, step, k) <= n - k
  {
    if k > 0 {
      ShortStepsEnd(n, step, k - 1);
    }
  }

  lemma {:induction false} LongStepsStall(n: nat, step: nat, k: nat)
    requires n >= U16 && step >= U16
    ensures Unsampled(n, step, k) >= U16
  {
    if k > 0 {
      LongStepsStall(n, step, k - 1);
    }
  }

  /** The sampling loop. */
  method Sample(items: seq<int>, step: nat) returns (hashes: seq<int>, last: nat)
    requires Ascending(items) && items != [] && 0 < step && (step < U16 || |items| < U16)
    ensures Ascending(hashes) && hashes != [] && hashes[|hashes| - 1] == items[|items| - 1]
    ensures if |hashes| == 1 then last == Min(step, |items|) == |items| else 0 < last <= step <= |items|
    ensures |items| == (|hashes| - 1) * step + last
    ensures Samples(items, step, hashes, |hashes| - 1)
  {
    hide Place, Samples;
    hashes, last := [], 0;
    var i := -1;
    // the body of a do-while loop runs once before its test
    last := Min(step, |items| - i - 1) % U16;
    i := i + last;
    hashes := hashes + [items[i]];
    ghost var before := 0;
    NoSamples(items, step, hashes);
    while i < |items| - 1
      invariant 0 <= i < |items| && 0 < last <= step
      invariant hashes != [] && hashes[|hashes| - 1] == items[i]
      invariant before == (|hashes| - 1) * step && i + 1 == before + last
      invariant i < |items| - 1 ==> last == step
      invariant |hashes| == 1 ==> last == Min(step, |items|)
      invariant |hashes| > 1 ==> step <= |items|
      invariant Samples(items, step, hashes, |hashes| - 1)
      invariant Ascending(hashes)
      decreases |items| - i
    {
      PlaceOf(|hashes| - 1, step);
      SamplesOneMore(items, step, hashes, i);
      before := before + step;
      last := Min(step, |items| - i - 1) % U16;
      i := i + last;
      hashes := hashes + [items[i]];
    }
  }

  lemma PlaceOf(k: nat, step: nat)
    ensures Place(k, step) + 1 == k * step + step == (k + 1) * step
  {
  }

  lemma NoSamples(items: seq<int>, step: nat, hashes: seq<int>)
    ensures Samples(items, step, hashes, 0)
  {
  }

  lemma SamplesOneMore(items: seq<int>, step: nat, hashes: seq<int>, i: nat)
    requires hashes != [] && Samples(items, step, hashes, |hashes| - 1)
    requires i < |items| && i == Place(|hashes| - 1, step) && hashes[|hashes| - 1] == items[i]
    ensures forall x :: Samples(items, step, hashes + [x], |hashes|)
  {
    hide Place;
  }

  /** CalculateItemsCountBasedOnHistograms. */
  function Total(hs: seq<Histogram>): nat {
    if hs == [] then 0 else Total(hs[..|hs| - 1]) + Weight(hs[|hs| - 1])
  }

  method CalculateItemsCount(hs: seq<Histogram>) returns (n: nat)
    requires forall i :: 0 <= i < |hs| ==> |hs[i].hashes| == 1 ==> hs[i].stepLast == hs[i].stepCommon
    ensures n == Total(hs)
  {
    n := 0;
    for i := 0 to |hs|
      invariant n == Total(hs[..i])
    {
      assert hs[..i + 1][..i] == hs[..i];
      if |hs[i].hashes| > 1 {
        n := n + hs[i].stepCommon * (|hs[i].hashes| - 1);
        n := n + hs[i].stepLast;
      } else if |hs[i].hashes| == 1 {
        n := n + hs[i].stepLast;
      }
    }
    assert hs[..|hs|] == hs;
  }

  function Hashes(hs: seq<Histogram>): (r: seq<seq<int>>)
    ensures |r| == |hs| && forall i :: 0 <= i < |hs| ==> r[i] == hs[i].hashes
  {
    seq(|hs|, i requires 0 <= i < |hs| => hs[i].hashes)
  }

  function Id(x: int): int { x }

  /** How many items the k-th sample of a histogram stands for. */
  function StepAt(h: Histogram, k: nat): nat {
    if k < |h.hashes| - 1 then h.stepCommon else h.stepLast
  }

  /** A divider and the weight of the block of samples that it closes. */
  datatype Cut = Cut(hash: int, weight: nat)

  /** Go through the samples in merged order and close a block whenever it weighs g or more,
      at most room times. */
  function Cuts(hs: seq<Histogram>, ps: seq<(nat, nat)>, block: nat, g: nat, room: nat): seq<Cut>
    requires Valid(Hashes(hs), ps)
  {
    if room == 0 || ps == [] then [] else
      var (i, k) := ps[0];
      var w := block + StepAt(hs[i], k);
      if w >= g then [Cut(hs[i].hashes[k], w)] + Cuts(hs, ps[1..], 0, g, room - 1)
      else Cuts(hs, ps[1..], w, g, room)
  }

  function CutHashes(cs: seq<Cut>): (r: seq<int>)
    ensures |r| == |cs| && forall i :: 0 <= i < |cs| ==> r[i] == cs[i].hash
  {
    seq(|cs|, i requires 0 <= i < |cs| => cs[i].hash)
  }

  ghost function AllCuts(hs: seq<Histogram>, count: nat): seq<Cut>
    requires count > 0
  {
    var share: nat := Total(hs) / count;
    var srcs := Hashes(hs);
    PicksValid(srcs, Start(srcs), Id);
    Cuts(hs, Picks(srcs, Start(srcs), Id), 0, share, count - 1)
  }

  ghost predicate StepsUpTo(hs: seq<Histogram>, m: nat) {
    forall i :: 0 <= i < |hs| ==> hs[i].stepCommon <= m && hs[i].stepLast <= m
  }

  /** Load bound: a block closed by a divider weighs at least the even share g and less than g
      plus the largest step; with g = 0 it is a single sample. */
  lemma {:induction false} CutsWeigh(hs: seq<Histogram>, ps: seq<(nat, nat)>, block: nat, g: nat, room: nat, m: nat)
    requires Valid(Hashes(hs), ps) && StepsUpTo(hs, m)
    requires block < g || block == 0
    ensures |Cuts(hs, ps, block, g, room)| <= room
    ensures forall i :: 0 <= i < |Cuts(hs, ps, block, g, room)| ==>
              var w := Cuts(hs, ps, block, g, room)[i].weight;
              g <= w && (if g > 0 then w < g + m else w <= m)
    decreases |ps|
  {
    if room > 0 && ps != [] {
      var (i, k) := ps[0];
      var w := block + StepAt(hs[i], k);
      if w >= g {
        CutsWeigh(hs, ps[1..], 0, g, room - 1, m);
      } else {
        CutsWeigh(hs, ps[1..], w, g, room, m);
      }
    }
  }

  /** The dividers are taken from the merged samples in their order. */
  lemma {:induction false} CutsAscend(hs: seq<Histogram>, ps: seq<(nat, nat)>, block: nat, g: nat, room: nat, low: int)
    requires Valid(Hashes(hs), ps)
    requires Sorted(Items(Hashes(hs), ps), Id) && AtLeast(Items(Hashes(hs), ps), Id, low)
    ensures var cs := CutHashes(Cuts(hs, ps, block, g, room));
            Ascending(cs) && forall i :: 0 <= i < |cs| ==> cs[i] >= low
    decreases |ps|
  {
    if room > 0 && ps != [] {
      var (i, k) := ps[0];
      var x := hs[i].hashes[k];
      var all, rest := Items(Hashes(hs), ps), Items(Hashes(hs), ps[1..]);
      assert all == [x] + rest;
      assert Id(all[0]) >= low;
      forall a | 0 <= a < |rest|
        ensures Id(rest[a]) >= x
      {
        assert rest[a] == all[a + 1];
      }
      forall a, b | 0 <= a < b < |rest|
        ensures Id(rest[a]) <= Id(rest[b])
      {
        assert rest[a] == all[a + 1] && rest[b] == all[b + 1];
      }
      var w := block + StepAt(hs[i], k);
      if w >= g {
        CutsAscend(hs, ps[1..], 0, g, room - 1, x);
      } else {
        CutsAscend(hs, ps[1..], w, g, room, x);
      }
    }
  }

  function Lengths(bufs: seq<seq<int>>): nat {
    if bufs == [] then 0 else Lengths(bufs[..|bufs| - 1]) + |bufs[|bufs| - 1]|
  }

  /** The total that the dividers are based on is the true number of items. */
  lemma {:induction false} TotalExact(hs: seq<Histogram>, bufs: seq<seq<int>>)
    requires |hs| == |bufs| && forall i :: 0 <= i < |hs| ==> Weight(hs[i]) == |bufs[i]|
    ensures Total(hs) == Lengths(bufs)
  {
    if hs != [] {
      TotalExact(hs[..|hs| - 1], bufs[..|bufs| - 1]);
    }
  }

  /** The histograms as every mapper holds them: sorted, within the range of the hash. */
  ghost predicate Good(hs: seq<Histogram>, top: int) {
    forall i :: 0 <= i < |hs| ==>
      && Ascending(hs[i].hashes)
      && (forall k :: 0 <= k < |hs[i].hashes| ==> hs[i].hashes[k] <= top)
      && (|hs[i].hashes| == 1 ==> hs[i].stepLast == hs[i].stepCommon)
  }

  /** The cuts still to come, seen from the middle of the loop. */
  ghost function Rest(hs: seq<Histogram>, pos: seq<nat>, block: nat, g: nat, room: nat): seq<int>
    requires Cursors(Hashes(hs), pos)
  {
    PicksValid(Hashes(hs), pos, Id);
    CutHashes(Cuts(hs, Picks(Hashes(hs), pos, Id), block, g, room))
  }

  lemma RestStep(hs: seq<Histogram>, pos: seq<nat>, block: nat, g: nat, room: nat)
    requires Cursors(Hashes(hs), pos)
    ensures var r := Least(Hashes(hs), pos, Id);
            if r == -1 || room == 0 then Rest(hs, pos, block, g, room) == []
            else
              && 0 <= r < |hs| == |pos| && pos[r] < |hs[r].hashes| && Cursors(Hashes(hs), Advance(pos, r))
              && Remaining(Hashes(hs), Advance(pos, r)) < Remaining(Hashes(hs), pos)
              && var w := block + StepAt(hs[r], pos[r]);
                 Rest(hs, pos, block, g, room) ==
                 if w >= g then [hs[r].hashes[pos[r]]] + Rest(hs, Advance(pos, r), 0, g, room - 1)
                 else Rest(hs, Advance(pos, r), w, g, room)
  {
    hide Cursors, Remaining, Valid, IsLeast, Least;
    var srcs := Hashes(hs);
    var r := Least(srcs, pos, Id);
    PicksValid(srcs, pos, Id);
    if r != -1 && room > 0 {
      Current(srcs, pos, Id, r);
      RemainingStep(srcs, pos, r);
      PicksValid(srcs, Advance(pos, r), Id);
      var ps := Picks(srcs, pos, Id);
      assert ps[1..] == Picks(srcs, Advance(pos, r), Id);
      assert ps[0] == (r as nat, pos[r]);
    }
  }

  /** The loop that emits all dividers but the last. */
  method CutLoop(hs: seq<Histogram>, g: nat, count: nat) returns (dividers: seq<int>)
    requires count > 0
    ensures dividers == Rest(hs, Start(Hashes(hs)), 0, g, count - 1)
  {
    hide Cursors, Remaining, IsLeast, Least, Rest;
    var block: nat := 0;
    var srcs := Hashes(hs);
    var pos := Start(srcs);
    dividers := [];
    ghost var all := Rest(hs, pos, 0, g, count - 1);
    assert [] + all == all;
    while |dividers| + 1 < count
      invariant Cursors(srcs, pos) && |dividers| <= count - 1
      invariant dividers + Rest(hs, pos, block, g, count - 1 - |dividers|) == all
      decreases Remaining(srcs, pos)
    {
      RestStep(hs, pos, block, g, count - 1 - |dividers|);
      var m := Search(srcs, pos, Id);
      if m == -1 {
        break;
      }
      block := block + StepAt(hs[m], pos[m]);
      if block >= g {
        dividers := dividers + [hs[m].hashes[pos[m]]];
        block := 0;
      }
      pos := pos[m := pos[m] + 1];
    }
    RestStep(hs, pos, block, g, count - 1 - |dividers|);
    assert dividers + [] == dividers;
  }

  /** The cuts, and the maximum for the reducers without one. */
  ghost function DividersOf(hs: seq<Histogram>, count: nat, top: int): (d: seq<int>)
    requires count > 0
    ensures |d| == count
    ensures forall i :: 0 <= i < count ==> d[i] == if i < |AllCuts(hs, count)| then AllCuts(hs, count)[i].hash else top
  {
    var cuts := AllCuts(hs, count);
    seq(count, i requires 0 <= i < count => if i < |cuts| then cuts[i].hash else top)
  }

  /** GetReducersDividerArrayBasedOnSummarizedHistograms: one divider per reducer.  top is the
      hash whose bytes are all 0xFF. */
  method GetDividers(hs: seq<Histogram>, count: nat, top: int) returns (dividers: seq<int>)
    requires count > 0 && Good(hs, top)
    ensures |dividers| == count && Ascending(dividers) && dividers[count - 1] == top
    ensures |AllCuts(hs, count)| < count && dividers == DividersOf(hs, count, top)
  {
    hide AllCuts, Rest, Total;
    CutsFacts(hs, count, top);
    StartsWithAllCuts(hs, count);
    var total := CalculateItemsCount(hs);
    dividers := CutLoop(hs, total / count, count);
    ghost var all := dividers;
    while |dividers| < count
      invariant |all| <= |dividers| <= count
      invariant forall i :: 0 <= i < |dividers| ==> dividers[i] == if i < |all| then all[i] else top
    {
      dividers := dividers + [top];
    }
  }

  lemma StartsWithAllCuts(hs: seq<Histogram>, count: nat)
    requires count > 0
    ensures Rest(hs, Start(Hashes(hs)), 0, Total(hs) / count, count - 1) == CutHashes(AllCuts(hs, count))
  {
  }

  lemma CutsFacts(hs: seq<Histogram>, count: nat, top: int)
    requires count > 0 && Good(hs, top)
    ensures |AllCuts(hs, count)| < count
    ensures Ascending(CutHashes(AllCuts(hs, count)))
    ensures forall i :: 0 <= i < |AllCuts(hs, count)| ==> AllCuts(hs, count)[i].hash <= top
  {
    hide Cursors, Valid, Picks, Cuts, KWayMerge.Items, Sorted, AllSorted, Ascending, Good, RestAtLeast, AtLeast;
    var srcs := Hashes(hs);
    var pos := Start(srcs);
    GoodSorted(hs, top);
    var low := Bottom(srcs, Id);
    PicksSorted(srcs, pos, Id, low);
    CutsAscend(hs, Picks(srcs, pos, Id), 0, Total(hs) / count, count - 1, low);
    var m := LargestStep(hs);
    CutsWeigh(hs, Picks(srcs, pos, Id), 0, Total(hs) / count, count - 1, m);
    CutsBelow(hs, Picks(srcs, pos, Id), 0, Total(hs) / count, count - 1, top);
  }

  lemma GoodSorted(hs: seq<Histogram>, top: int)
    requires Good(hs, top)
    ensures AllSorted(Hashes(hs), Id)
  {
    forall i | 0 <= i < |hs|
      ensures Sorted(Hashes(hs)[i], Id)
    {
      assert Ascending(hs[i].hashes);
    }
  }

  lemma LargestStep(hs: seq<Histogram>) returns (m: nat)
    ensures StepsUpTo(hs, m)
  {
    m := 0;
    for i := 0 to |hs|
      invariant forall k :: 0 <= k < i ==> hs[k].stepCommon <= m && hs[k].stepLast <= m
    {
      m := if hs[i].stepCommon > m then hs[i].stepCommon else m;
      m := if hs[i].stepLast > m then hs[i].stepLast else m;
    }
  }

  lemma {:induction false} CutsBelow(hs: seq<Histogram>, ps: seq<(nat, nat)>, block: nat, g: nat, room: nat, top: int)
    requires Valid(Hashes(hs), ps) && Good(hs, top)
    ensures forall i :: 0 <= i < |Cuts(hs, ps, block, g, room)| ==> Cuts(hs, ps, block, g, room)[i].hash <= top
    decreases |ps|
  {
    if room > 0 && ps != [] {
      var (i, k) := ps[0];
      var w := block + StepAt(hs[i], k);
      if w >= g {
        CutsBelow(hs, ps[1..], 0, g, room - 1, top);
      } else {
        CutsBelow(hs, ps[1..], w, g, room, top);
      }
    }
  }

  /** The blocks in front of the emitted dividers are balanced around the even share. */
  lemma BlocksBalanced(hs: seq<Histogram>, count: nat, m: nat)
    requires count > 0 && StepsUpTo(hs, m)
    ensures forall i :: 0 <= i < |AllCuts(hs, count)| ==>
              var w, g := AllCuts(hs, count)[i].weight, Total(hs) / count;
              g <= w && (g > 0 ==> w < g + m)
  {
    hide Cuts, Picks, Total, Valid, StepsUpTo;
    var srcs := Hashes(hs);
    PicksValid(srcs, Start(srcs), Id);
    CutsWeigh(hs, Picks(srcs, Start(srcs), Id), 0, Total(hs) / count, count - 1, m);
  }
}
