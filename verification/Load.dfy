/** How much each reducer gets: the samples behind the last divider, and what the weights of
    samples say about true numbers of items (lib/mapreduce/map_reduce_lib.c). */
module Load {

  import opened Orders
  import opened KWayMerge
  import opened Dividers

  // ---- the block of the last reducer

  function PicksWeight(hs: seq<Histogram>, ps: seq<(nat, nat)>): nat
    requires Valid(Hashes(hs), ps)
  {
    if ps == [] then 0 else StepAt(hs[ps[0].0], ps[0].1) + PicksWeight(hs, ps[1..])
  }

  function CutsWeight(cs: seq<Cut>): nat {
    if cs == [] then 0 else cs[0].weight + CutsWeight(cs[1..])
  }

  /** The weight behind the last cut. */
  function Leftover(hs: seq<Histogram>, ps: seq<(nat, nat)>, block: nat, g: nat, room: nat): nat
    requires Valid(Hashes(hs), ps)
  {
    if room == 0 || ps == [] then block + PicksWeight(hs, ps) else
      var w := block + StepAt(hs[ps[0].0], ps[0].1);
      if w >= g then Leftover(hs, ps[1..], 0, g, room - 1) else Leftover(hs, ps[1..], w, g, room)
  }

  lemma {:induction false} CutsBalance(hs: seq<Histogram>, ps: seq<(nat, nat)>, block: nat, g: nat, room: nat)
    requires Valid(Hashes(hs), ps)
    requires block < g || block == 0
    ensures var cs, rest := Cuts(hs, ps, block, g, room), Leftover(hs, ps, block, g, room);
            && CutsWeight(cs) + rest == block + PicksWeight(hs, ps)
            && |cs| <= room
            && (|cs| == room || rest < g || rest == 0)
            && CutsWeight(cs) >= |cs| * g
    decreases |ps|
  {
    if room > 0 && ps != [] {
      var (i, k) := ps[0];
      var w := block + StepAt(hs[i], k);
      if w >= g {
        CutsBalance(hs, ps[1..], 0, g, room - 1);
        var tail := Cuts(hs, ps[1..], 0, g, room - 1);
        assert Cuts(hs, ps, block, g, room)[1..] == tail;
        assert (|tail| + 1) * g == |tail| * g + g;
      } else {
        CutsBalance(hs, ps[1..], w, g, room);
      }
    }
  }

  /** The weight of a histogram's samples from place k on. */
  function WeightFrom(h: Histogram, k: nat): nat
    requires k <= |h.hashes|
    decreases |h.hashes| - k
  {
    if k == |h.hashes| then 0 else StepAt(h, k) + WeightFrom(h, k + 1)
  }

  lemma {:induction false} WeightFromIs(h: Histogram, k: nat)
    requires k < |h.hashes|
    ensures WeightFrom(h, k) == h.stepCommon * (|h.hashes| - 1 - k) + h.stepLast
    decreases |h.hashes| - k
  {
    var n := |h.hashes| - 1;
    if k < n {
      WeightFromIs(h, k + 1);
      assert h.stepCommon * (n - k) == h.stepCommon + h.stepCommon * (n - (k + 1));
    } else {
      assert WeightFrom(h, k + 1) == 0;
      assert h.stepCommon * (n - k) == 0;
    }
  }

  function Unpicked(hs: seq<Histogram>, pos: seq<nat>): nat
    requires Cursors(Hashes(hs), pos)
  {
    if hs == [] then 0 else
      var n := |hs| - 1;
      assert Cursors(Hashes(hs[..n]), pos[..n]);
      Unpicked(hs[..n], pos[..n]) + WeightFrom(hs[n], pos[n])
  }

  lemma {:induction false} UnpickedStep(hs: seq<Histogram>, pos: seq<nat>, i: nat)
    requires Cursors(Hashes(hs), pos) && i < |hs| && pos[i] < |hs[i].hashes|
    ensures Cursors(Hashes(hs), Advance(pos, i))
    ensures Unpicked(hs, pos) == StepAt(hs[i], pos[i]) + Unpicked(hs, Advance(pos, i))
  {
    var n := |hs| - 1;
    assert Cursors(Hashes(hs[..n]), pos[..n]);
    if i < n {
      UnpickedStep(hs[..n], pos[..n], i);
      assert Advance(pos, i)[..n] == Advance(pos[..n], i);
    } else {
      assert Advance(pos, i)[..n] == pos[..n];
    }
  }

  lemma {:induction false} NothingUnpicked(hs: seq<Histogram>, pos: seq<nat>)
    requires Cursors(Hashes(hs), pos) && forall i :: 0 <= i < |hs| ==> pos[i] == |hs[i].hashes|
    ensures Unpicked(hs, pos) == 0
  {
    if hs != [] {
      var n := |hs| - 1;
      assert Cursors(Hashes(hs[..n]), pos[..n]);
      NothingUnpicked(hs[..n], pos[..n]);
    }
  }

  /** The merge picks every sample once, so it picks the whole weight. */
  lemma {:induction false} PicksWeigh(hs: seq<Histogram>, pos: seq<nat>)
    requires Cursors(Hashes(hs), pos)
    ensures Valid(Hashes(hs), Picks(Hashes(hs), pos, Id))
            && PicksWeight(hs, Picks(Hashes(hs), pos, Id)) == Unpicked(hs, pos)
    decreases Remaining(Hashes(hs), pos)
  {
    hide IsLeast, Unpicked, Least, Remaining;
    var srcs := Hashes(hs);
    PicksValid(srcs, pos, Id);
    var r := Least(srcs, pos, Id);
    if r == -1 {
      AllConsumed(hs, pos);
      NothingUnpicked(hs, pos);
    } else {
      Current(srcs, pos, Id, r);
      RemainingStep(srcs, pos, r);
      UnpickedStep(hs, pos, r);
      PicksWeigh(hs, Advance(pos, r));
      assert Picks(srcs, pos, Id)[1..] == Picks(srcs, Advance(pos, r), Id);
    }
  }

  lemma AllConsumed(hs: seq<Histogram>, pos: seq<nat>)
    requires Cursors(Hashes(hs), pos) && Least(Hashes(hs), pos, Id) == -1
    ensures forall i :: 0 <= i < |hs| ==> pos[i] == |hs[i].hashes|
  {
    forall i | 0 <= i < |hs|
      ensures pos[i] == |hs[i].hashes|
    {
      assert !Open(Hashes(hs), pos, i);
    }
  }

  lemma {:induction false} UnpickedAtStart(hs: seq<Histogram>, pos: seq<nat>)
    requires Cursors(Hashes(hs), pos) && forall i :: 0 <= i < |pos| ==> pos[i] == 0
    requires forall i :: 0 <= i < |hs| ==> |hs[i].hashes| == 1 ==> hs[i].stepLast == hs[i].stepCommon
    ensures Unpicked(hs, pos) == Total(hs)
  {
    if hs != [] {
      var n := |hs| - 1;
      assert Cursors(Hashes(hs[..n]), pos[..n]);
      UnpickedAtStart(hs[..n], pos[..n]);
      if hs[n].hashes != [] {
        WeightFromIs(hs[n], 0);
      }
    }
  }

  /** What is left behind the last cut, for the first reducer without a divider from the samples. */
  ghost function LastBlock(hs: seq<Histogram>, count: nat): nat
    requires count > 0
  {
    var srcs := Hashes(hs);
    PicksValid(srcs, Start(srcs), Id);
    Leftover(hs, Picks(srcs, Start(srcs), Id), 0, Total(hs) / count, count - 1)
  }

  /** With all dividers emitted it weighs at most what the others' even shares leave, otherwise less
      than an even share (or nothing). */
  lemma LastBlockBounded(hs: seq<Histogram>, count: nat, top: int)
    requires count > 0 && Good(hs, top)
    ensures var g, cs := Total(hs) / count, AllCuts(hs, count);
            && CutsWeight(cs) + LastBlock(hs, count) == Total(hs)
            && (|cs| == count - 1 ==> LastBlock(hs, count) <= Total(hs) - (count - 1) * g)
            && (|cs| < count - 1 ==> LastBlock(hs, count) < g || LastBlock(hs, count) == 0)
  {
    hide Cuts, Leftover, Picks, PicksWeight, Unpicked, Total, CutsWeight, Start;
    var srcs, g := Hashes(hs), Total(hs) / count;
    PicksWeigh(hs, Start(srcs));
    UnpickedAtStart(hs, Start(srcs));
    CutsBalance(hs, Picks(srcs, Start(srcs), Id), 0, g, count - 1);
  }

  // ---- weights and true numbers

  /** How many of the ascending numbers are not above v. */
  function UpTo(s: seq<int>, v: int): (r: nat)
    requires Ascending(s)
    ensures r <= |s| && (forall i :: 0 <= i < r ==> s[i] <= v) && forall i :: r <= i < |s| ==> s[i] > v
  {
    if s == [] then 0 else
      var n := |s| - 1;
      assert Ascending(s[..n]);
      if s[n] <= v then |s| else UpTo(s[..n], v)
  }

  /** The weight of the samples not above v. */
  function SampleWeight(h: Histogram, v: int): nat
    requires Ascending(h.hashes)
  {
    var s := UpTo(h.hashes, v);
    if s == |h.hashes| then Weight(h) else h.stepCommon * s
  }

  /** The samples not above a hash undercount the items not above it, by less than one step. */
  lemma SamplesCount(items: seq<int>, step: nat, h: Histogram, v: int)
    requires Ascending(items) && Describes(h, items) && step > 0 && Weight(h) == |items|
    requires items != [] ==>
               && Samples(items, step, h.hashes, |h.hashes| - 1)
               && (|h.hashes| > 1 ==> h.stepCommon == step) && h.stepLast <= step
    ensures SampleWeight(h, v) <= UpTo(items, v) < SampleWeight(h, v) + step
  {
    var s, u := UpTo(h.hashes, v), UpTo(items, v);
    if items != [] {
      var n := |h.hashes| - 1;
      if s == |h.hashes| {
        assert items[|items| - 1] <= v;
      } else {
        if s > 0 {
          assert Place(s - 1, step) == s * step - 1 && h.hashes[s - 1] == items[Place(s - 1, step)];
        }
        if s < n {
          assert Place(s, step) == s * step + step - 1 && h.hashes[s] == items[Place(s, step)];
        } else {
          assert items[|items| - 1] > v;
          assert n * step == step * n;
        }
        assert s * step == step * s;
      }
    }
  }

  /** What a histogram promises about its buffer: the exact number of items, and up to a hash never too
      many of them and at most one step too few. */
  ghost predicate Close(h: Histogram, items: seq<int>) {
    && Describes(h, items) && Ascending(items) && Weight(h) == |items|
    && forall v :: SampleWeight(h, v) <= UpTo(items, v) <= SampleWeight(h, v) + h.stepCommon
  }

  /** Whatever GetHistogram returns is close, unless it truncates the count. */
  lemma SampledClose(items: seq<int>, step: nat, h: Histogram)
    requires Ascending(items) && Describes(h, items) && Weight(h) == |items|
    requires step > 0 && items != [] ==> Samples(items, step, h.hashes, |h.hashes| - 1) && h.stepLast <= step
    requires step > 0 && |h.hashes| > 1 ==> h.stepCommon == step
    requires step == 0 ==> |h.hashes| <= 1
    ensures Close(h, items)
  {
    forall v
      ensures SampleWeight(h, v) <= UpTo(items, v) <= SampleWeight(h, v) + h.stepCommon
    {
      if step > 0 {
        SamplesCount(items, step, h, v);
      } else if items != [] {
        assert UpTo(h.hashes, v) == 1 ==> items[|items| - 1] <= v;
      }
    }
  }

  // ---- what the dividers mean for numbers of items

  ghost function ItemsUpTo(bufs: seq<seq<int>>, v: int): nat
    requires forall i :: 0 <= i < |bufs| ==> Ascending(bufs[i])
  {
    if bufs == [] then 0 else
      var n := |bufs| - 1;
      ItemsUpTo(bufs[..n], v) + UpTo(bufs[n], v)
  }

  ghost function SamplesUpTo(hs: seq<Histogram>, v: int): nat
    requires forall i :: 0 <= i < |hs| ==> Ascending(hs[i].hashes)
  {
    if hs == [] then 0 else
      var n := |hs| - 1;
      SamplesUpTo(hs[..n], v) + SampleWeight(hs[n], v)
  }

  ghost predicate AllClose(hs: seq<Histogram>, bufs: seq<seq<int>>) {
    |hs| == |bufs| && forall i :: 0 <= i < |hs| ==> Close(hs[i], bufs[i])
  }

  lemma {:induction false} SamplesBelowItems(hs: seq<Histogram>, bufs: seq<seq<int>>, v: int)
    requires AllClose(hs, bufs)
    ensures SamplesUpTo(hs, v) <= ItemsUpTo(bufs, v) <= Lengths(bufs)
  {
    if hs != [] {
      var n := |hs| - 1;
      assert Close(hs[n], bufs[n]);
      SamplesBelowItems(hs[..n], bufs[..n], v);
    }
  }

  /** The weight of the picks not above v. */
  function PicksUpTo(hs: seq<Histogram>, ps: seq<(nat, nat)>, v: int): nat
    requires Valid(Hashes(hs), ps)
  {
    if ps == [] then 0 else
      (if hs[ps[0].0].hashes[ps[0].1] <= v then StepAt(hs[ps[0].0], ps[0].1) else 0) + PicksUpTo(hs, ps[1..], v)
  }

  /** Everything counted into the first cuts lies at or below the last of them. */
  lemma {:induction false} CutsUpTo(hs: seq<Histogram>, ps: seq<(nat, nat)>, block: nat, g: nat, room: nat, k: nat,
                                    low: int)
    requires Valid(Hashes(hs), ps)
    requires Sorted(Items(Hashes(hs), ps), Id) && AtLeast(Items(Hashes(hs), ps), Id, low)
    requires k < |Cuts(hs, ps, block, g, room)|
    ensures var cs := Cuts(hs, ps, block, g, room);
            cs[k].hash >= low && CutsWeight(cs[..k + 1]) <= block + PicksUpTo(hs, ps, cs[k].hash)
    decreases |ps|
  {
    var (i, j) := ps[0];
    var h, w := hs[i].hashes[j], block + StepAt(hs[i], j);
    var cs := Cuts(hs, ps, block, g, room);
    TailSorted(hs, ps, h);
    if w >= g {
      var tail := Cuts(hs, ps[1..], 0, g, room - 1);
      assert cs == [Cut(h, w)] + tail;
      if k > 0 {
        CutsUpTo(hs, ps[1..], 0, g, room - 1, k - 1, h);
        assert cs[..k + 1][1..] == tail[..k];
      } else {
        assert cs[..1][1..] == [];
      }
    } else {
      CutsUpTo(hs, ps[1..], w, g, room, k, h);
    }
  }

  lemma TailSorted(hs: seq<Histogram>, ps: seq<(nat, nat)>, h: int)
    requires Valid(Hashes(hs), ps) && ps != [] && h == hs[ps[0].0].hashes[ps[0].1]
    requires Sorted(Items(Hashes(hs), ps), Id)
    ensures Items(Hashes(hs), ps)[0] == h
    ensures Sorted(Items(Hashes(hs), ps[1..]), Id) && AtLeast(Items(Hashes(hs), ps[1..]), Id, h)
  {
    var all, tail := Items(Hashes(hs), ps), Items(Hashes(hs), ps[1..]);
    assert all == [h] + tail;
    forall i, j | 0 <= i < j < |tail|
      ensures Id(tail[i]) <= Id(tail[j])
    {
      assert Id(all[i + 1]) <= Id(all[j + 1]);
    }
    forall i | 0 <= i < |tail|
      ensures Id(tail[i]) >= h
    {
      assert Id(all[0]) <= Id(all[i + 1]);
    }
  }

  /** The weight, not above v, of a histogram's samples from place k on. */
  function WeightFromUpTo(h: Histogram, k: nat, v: int): nat
    requires k <= |h.hashes|
    decreases |h.hashes| - k
  {
    if k == |h.hashes| then 0 else (if h.hashes[k] <= v then StepAt(h, k) else 0) + WeightFromUpTo(h, k + 1, v)
  }

  function UnpickedUpTo(hs: seq<Histogram>, pos: seq<nat>, v: int): nat
    requires Cursors(Hashes(hs), pos)
  {
    if hs == [] then 0 else
      var n := |hs| - 1;
      assert Cursors(Hashes(hs[..n]), pos[..n]);
      UnpickedUpTo(hs[..n], pos[..n], v) + WeightFromUpTo(hs[n], pos[n], v)
  }

  lemma {:induction false} UnpickedUpToStep(hs: seq<Histogram>, pos: seq<nat>, i: nat, v: int)
    requires Cursors(Hashes(hs), pos) && i < |hs| && pos[i] < |hs[i].hashes|
    ensures Cursors(Hashes(hs), Advance(pos, i))
    ensures UnpickedUpTo(hs, pos, v) ==
            (if hs[i].hashes[pos[i]] <= v then StepAt(hs[i], pos[i]) else 0) + UnpickedUpTo(hs, Advance(pos, i), v)
  {
    var n := |hs| - 1;
    assert Cursors(Hashes(hs[..n]), pos[..n]);
    if i < n {
      UnpickedUpToStep(hs[..n], pos[..n], i, v);
      assert Advance(pos, i)[..n] == Advance(pos[..n], i);
    } else {
      assert Advance(pos, i)[..n] == pos[..n];
    }
  }

  lemma {:induction false} NothingUpTo(hs: seq<Histogram>, pos: seq<nat>, v: int)
    requires Cursors(Hashes(hs), pos) && forall i :: 0 <= i < |hs| ==> pos[i] == |hs[i].hashes|
    ensures UnpickedUpTo(hs, pos, v) == 0
  {
    if hs != [] {
      var n := |hs| - 1;
      assert Cursors(Hashes(hs[..n]), pos[..n]);
      NothingUpTo(hs[..n], pos[..n], v);
    }
  }

  lemma {:induction false} PicksWeighUpTo(hs: seq<Histogram>, pos: seq<nat>, v: int)
    requires Cursors(Hashes(hs), pos)
    ensures Valid(Hashes(hs), Picks(Hashes(hs), pos, Id))
    ensures PicksUpTo(hs, Picks(Hashes(hs), pos, Id), v) == UnpickedUpTo(hs, pos, v)
    decreases Remaining(Hashes(hs), pos)
  {
    hide IsLeast, UnpickedUpTo, Least, Remaining;
    var srcs := Hashes(hs);
    PicksValid(srcs, pos, Id);
    var r := Least(srcs, pos, Id);
    if r == -1 {
      AllConsumed(hs, pos);
      NothingUpTo(hs, pos, v);
    } else {
      Current(srcs, pos, Id, r);
      RemainingStep(srcs, pos, r);
      UnpickedUpToStep(hs, pos, r, v);
      PicksWeighUpTo(hs, Advance(pos, r), v);
      assert Picks(srcs, pos, Id)[1..] == Picks(srcs, Advance(pos, r), Id);
    }
  }

  lemma {:induction false} WeightFromUpToIs(h: Histogram, k: nat, v: int)
    requires Ascending(h.hashes) && k <= |h.hashes| && (|h.hashes| == 1 ==> h.stepLast == h.stepCommon)
    ensures var s := UpTo(h.hashes, v);
            WeightFromUpTo(h, k, v) ==
            if k >= s then 0 else if s == |h.hashes| then WeightFrom(h, k) else h.stepCommon * (s - k)
    decreases |h.hashes| - k
  {
    hide Ascending;
    var s := UpTo(h.hashes, v);
    if k < |h.hashes| {
      WeightFromUpToIs(h, k + 1, v);
      if k < s {
        OneStepMore(h.stepCommon, s, k);
      }
    }
  }

  lemma OneStepMore(step: nat, s: nat, k: nat)
    requires k < s
    ensures step * (s - k) == step + step * (s - (k + 1))
    ensures k + 1 == s ==> step * (s - (k + 1)) == 0
  {
  }

  lemma {:induction false} UpToAtStart(hs: seq<Histogram>, pos: seq<nat>, v: int)
    requires Cursors(Hashes(hs), pos) && forall i :: 0 <= i < |pos| ==> pos[i] == 0
    requires forall i :: 0 <= i < |hs| ==>
               Ascending(hs[i].hashes) && (|hs[i].hashes| == 1 ==> hs[i].stepLast == hs[i].stepCommon)
    ensures UnpickedUpTo(hs, pos, v) == SamplesUpTo(hs, v)
  {
    if hs != [] {
      var n := |hs| - 1;
      assert Cursors(Hashes(hs[..n]), pos[..n]);
      UpToAtStart(hs[..n], pos[..n], v);
      WholeUpTo(hs[n], v);
    }
  }

  lemma WholeUpTo(h: Histogram, v: int)
    requires Ascending(h.hashes) && (|h.hashes| == 1 ==> h.stepLast == h.stepCommon)
    ensures WeightFromUpTo(h, 0, v) == SampleWeight(h, v)
  {
    hide WeightFromUpTo, WeightFrom, UpTo;
    WeightFromUpToIs(h, 0, v);
    if h.hashes != [] {
      WeightFromIs(h, 0);
    } else {
      assert UpTo(h.hashes, v) == 0;
    }
  }

  /** At least the weight of the first cuts lies, in samples, at or below the last of them. */
  lemma CutsInSamples(hs: seq<Histogram>, count: nat, top: int, k: nat)
    requires count > 0 && Good(hs, top) && k < |AllCuts(hs, count)|
    ensures CutsWeight(AllCuts(hs, count)[..k + 1]) <= SamplesUpTo(hs, AllCuts(hs, count)[k].hash)
  {
    hide Cuts, Picks, PicksUpTo, UnpickedUpTo, SamplesUpTo, Items, CutsWeight, Total;
    var srcs := Hashes(hs);
    GoodSorted(hs, top);
    var low := Bottom(srcs, Id);
    PicksSorted(srcs, Start(srcs), Id, low);
    var ps := Picks(srcs, Start(srcs), Id);
    var v := AllCuts(hs, count)[k].hash;
    CutsUpTo(hs, ps, 0, Total(hs) / count, count - 1, k, low);
    PicksWeighUpTo(hs, Start(srcs), v);
    UpToAtStart(hs, Start(srcs), v);
  }

  lemma {:induction false} PrefixWeight(cs: seq<Cut>, g: nat, k: nat)
    requires k <= |cs| && forall i :: 0 <= i < |cs| ==> cs[i].weight >= g
    ensures CutsWeight(cs[..k]) >= k * g
    decreases k
  {
    if k > 0 {
      PrefixWeight(cs[1..], g, k - 1);
      assert cs[..k][1..] == cs[1..][..k - 1];
      assert k * g == g + (k - 1) * g;
    }
  }

  /** The load of a job whose histograms are exact: at least k + 1 even shares of items lie at or below
      divider k, and at most the last block lies above the last divider taken from the samples. */
  lemma DividersBound(hs: seq<Histogram>, bufs: seq<seq<int>>, count: nat, top: int, k: nat)
    requires count > 0 && Good(hs, top) && AllClose(hs, bufs) && k < |AllCuts(hs, count)|
    ensures Total(hs) == Lengths(bufs)
    ensures var v, g := AllCuts(hs, count)[k].hash, Lengths(bufs) / count;
            && ItemsUpTo(bufs, v) >= (k + 1) * g
            && (k == |AllCuts(hs, count)| - 1 ==> Lengths(bufs) - ItemsUpTo(bufs, v) <= LastBlock(hs, count))
  {
    hide AllCuts, SamplesUpTo, ItemsUpTo, CutsWeight, Total, LastBlock, Lengths;
    TotalExact(hs, bufs);
    var cs := AllCuts(hs, count);
    CutsInSamples(hs, count, top, k);
    SamplesBelowItems(hs, bufs, cs[k].hash);
    var m := LargestStep(hs);
    BlocksBalanced(hs, count, m);
    PrefixWeight(cs, Total(hs) / count, k + 1);
    LastBlockBounded(hs, count, top);
    assert cs[..|cs|] == cs;
  }

  // ---- the same from above

  /** All samples from here on lie at or above low. */
  lemma {:induction false} NoneBelow(hs: seq<Histogram>, ps: seq<(nat, nat)>, low: int)
    requires Valid(Hashes(hs), ps) && AtLeast(Items(Hashes(hs), ps), Id, low)
    ensures PicksUpTo(hs, ps, low - 1) == 0
  {
    if ps != [] {
      var all, tail := Items(Hashes(hs), ps), Items(Hashes(hs), ps[1..]);
      var h := hs[ps[0].0].hashes[ps[0].1];
      assert all == [h] + tail;
      assert Id(all[0]) >= low;
      assert forall i :: 0 <= i < |tail| ==> tail[i] == all[i + 1];
      NoneBelow(hs, ps[1..], low);
    }
  }

  /** Everything strictly below a cut was counted into it or into the cuts before it. */
  lemma {:induction false} CutsBelow(hs: seq<Histogram>, ps: seq<(nat, nat)>, block: nat, g: nat, room: nat, k: nat,
                                     low: int)
    requires Valid(Hashes(hs), ps)
    requires Sorted(Items(Hashes(hs), ps), Id) && AtLeast(Items(Hashes(hs), ps), Id, low)
    requires k < |Cuts(hs, ps, block, g, room)|
    ensures var cs := Cuts(hs, ps, block, g, room);
            block + PicksUpTo(hs, ps, cs[k].hash - 1) <= CutsWeight(cs[..k + 1])
    decreases |ps|
  {
    var (i, j) := ps[0];
    var h, w := hs[i].hashes[j], block + StepAt(hs[i], j);
    var cs := Cuts(hs, ps, block, g, room);
    TailSorted(hs, ps, h);
    if w >= g {
      var tail := Cuts(hs, ps[1..], 0, g, room - 1);
      assert cs == [Cut(h, w)] + tail;
      if k > 0 {
        CutsBelow(hs, ps[1..], 0, g, room - 1, k - 1, h);
        assert cs[..k + 1][1..] == tail[..k];
      } else {
        NoneBelow(hs, ps[1..], h);
        assert cs[..1][1..] == [];
      }
    } else {
      CutsBelow(hs, ps[1..], w, g, room, k, h);
    }
  }

  /** At most the weight of the first cuts lies, in samples, strictly below the last of them. */
  lemma SamplesBelowCut(hs: seq<Histogram>, count: nat, top: int, k: nat)
    requires count > 0 && Good(hs, top) && k < |AllCuts(hs, count)|
    ensures SamplesUpTo(hs, AllCuts(hs, count)[k].hash - 1) <= CutsWeight(AllCuts(hs, count)[..k + 1])
  {
    hide Cuts, Picks, PicksUpTo, UnpickedUpTo, SamplesUpTo, Items, CutsWeight, Total;
    var srcs := Hashes(hs);
    GoodSorted(hs, top);
    var low := Bottom(srcs, Id);
    PicksSorted(srcs, Start(srcs), Id, low);
    var ps := Picks(srcs, Start(srcs), Id);
    var v := AllCuts(hs, count)[k].hash;
    CutsBelow(hs, ps, 0, Total(hs) / count, count - 1, k, low);
    PicksWeighUpTo(hs, Start(srcs), v - 1);
    UpToAtStart(hs, Start(srcs), v - 1);
  }

  lemma {:induction false} PrefixBelow(cs: seq<Cut>, w: nat, k: nat)
    requires k < |cs| && forall i :: 0 <= i < |cs| ==> cs[i].weight < w
    ensures CutsWeight(cs[..k + 1]) < (k + 1) * w
    decreases k
  {
    assert cs[..k + 1][1..] == cs[1..][..k];
    if k > 0 {
      PrefixBelow(cs[1..], w, k - 1);
      assert (k + 1) * w == w + k * w;
    }
  }

  /** The common steps of all histograms. */
  ghost function Steps(hs: seq<Histogram>): nat {
    if hs == [] then 0 else Steps(hs[..|hs| - 1]) + hs[|hs| - 1].stepCommon
  }

  lemma {:induction false} ItemsNearSamples(hs: seq<Histogram>, bufs: seq<seq<int>>, v: int)
    requires AllClose(hs, bufs)
    ensures ItemsUpTo(bufs, v) <= SamplesUpTo(hs, v) + Steps(hs)
  {
    if hs != [] {
      var n := |hs| - 1;
      assert Close(hs[n], bufs[n]);
      ItemsNearSamples(hs[..n], bufs[..n], v);
    }
  }

  /** Strictly below divider k lie fewer than k + 1 even shares, each with the largest step on top, and
      in items at most one step of each histogram more. */
  lemma DividersBoundAbove(hs: seq<Histogram>, bufs: seq<seq<int>>, count: nat, top: int, k: nat, m: nat)
    requires count > 0 && Good(hs, top) && AllClose(hs, bufs) && k < |AllCuts(hs, count)|
    requires StepsUpTo(hs, m) && Total(hs) / count > 0
    ensures var v, share := AllCuts(hs, count)[k].hash, (k + 1) * (Total(hs) / count + m);
            && SamplesUpTo(hs, v - 1) < share
            && ItemsUpTo(bufs, v - 1) < share + Steps(hs)
  {
    hide AllCuts, SamplesUpTo, ItemsUpTo, CutsWeight, Total, Steps, Good;
    var cs := AllCuts(hs, count);
    SamplesBelowCut(hs, count, top, k);
    ItemsNearSamples(hs, bufs, cs[k].hash - 1);
    BlocksBalanced(hs, count, m);
    PrefixBelow(cs, Total(hs) / count + m, k);
  }

  /** With equal hashes nothing bounds a range from above: two reducers, two equal items, and both lie
      at or below the first divider, although the even share is one. */
  lemma EqualHashesExample()
    ensures var hs, bufs := [Histogram([5, 5], 1, 1)], [[5, 5]];
            && AllClose(hs, bufs) && AllCuts(hs, 2) == [Cut(5, 1)] && ItemsUpTo(bufs, 5) == 2
  {
    hide Close, Picks, ItemsUpTo, UpTo;
    var h, items := Histogram([5, 5], 1, 1), [5, 5];
    SampledClose(items, 1, h);
    TwoEqual(items);
    OneCut([h]);
  }

  lemma TwoEqual(items: seq<int>)
    requires items == [5, 5]
    ensures Ascending(items) && ItemsUpTo([items], 5) == 2
  {
    var empty: seq<seq<int>> := [];
    assert [items][..0] == empty && ItemsUpTo(empty, 5) == 0;
  }

  lemma OneCut(hs: seq<Histogram>)
    requires hs == [Histogram([5, 5], 1, 1)]
    ensures AllCuts(hs, 2) == [Cut(5, 1)]
  {
    hide Picks;
    var none: seq<Histogram> := [];
    assert hs[..0] == none && Total(none) == 0 && Total(hs) == 2;
    TwoPicks(Hashes(hs));
    assert Cuts(hs, [(0, 0), (0, 1)], 0, 1, 1) == [Cut(5, 1)];
  }

  lemma TwoPicks(srcs: seq<seq<int>>)
    requires srcs == [[5, 5]]
    ensures Picks(srcs, Start(srcs), Id) == [(0, 0), (0, 1)]
  {
    assert Start(srcs) == [0];
    OnePick(srcs, 0);
    OnePick(srcs, 1);
    assert Least(srcs, [2], Id) == -1;
    assert Picks(srcs, [2], Id) == [];
  }

  lemma OnePick(srcs: seq<seq<int>>, p: nat)
    requires srcs == [[5, 5]] && p < 2
    ensures Picks(srcs, [p], Id) == [(0, p)] + Picks(srcs, [p + 1], Id)
  {
    hide Picks;
    var pos: seq<nat> := [p];
    assert Open(srcs, pos, 0);
    assert Least(srcs, pos, Id) == 0;
    assert Advance(pos, 0) == [p + 1];
    PicksUnfold(srcs, pos);
  }

  lemma PicksUnfold(srcs: seq<seq<int>>, pos: seq<nat>)
    requires Cursors(srcs, pos) && Least(srcs, pos, Id) != -1
    ensures var r := Least(srcs, pos, Id);
            && Cursors(srcs, Advance(pos, r))
            && Picks(srcs, pos, Id) == [(r as nat, pos[r])] + Picks(srcs, Advance(pos, r), Id)
  {
    hide Least;
    RemainingStep(srcs, pos, Least(srcs, pos, Id));
  }
}
