/** Which basket an item really goes to (DistributeDataIntoBaskets of lib/mapreduce/map_reduce_lib.c),
    and when equal hashes stay together. */
module Seats {

  import opened Orders
  import opened Baskets

  function HomeOf<T>(items: seq<T>, d: seq<int>, rank: T -> int, j: nat): (k: nat)
    requires Fit(items, d, rank) && j < |items|
    ensures k < |d|
  {
    Home(d, rank(items[j]))
  }

  /** The item goes to its home if that is at most one basket further than the item before it went,
      and one basket further otherwise. */
  function Seat<T>(items: seq<T>, d: seq<int>, rank: T -> int, j: nat): (b: nat)
    requires Fit(items, d, rank) && j < |items|
    ensures b <= HomeOf(items, d, rank, j)
  {
    Min(HomeOf(items, d, rank, j), if j == 0 then 1 else Seat(items, d, rank, j - 1) + 1)
  }

  lemma HomesRise<T>(items: seq<T>, d: seq<int>, rank: T -> int, i: nat, j: nat)
    requires Fit(items, d, rank) && Sorted(items, rank) && i <= j < |items|
    ensures HomeOf(items, d, rank, i) <= HomeOf(items, d, rank, j)
  {
    if i < j {
      HomeMonotone(d, rank(items[i]), rank(items[j]));
    }
  }

  /** Everything up to the next item above divider k has seat k. */
  lemma {:induction false} FirstSeats<T>(items: seq<T>, d: seq<int>, rank: T -> int, k: nat, start: nat, j: nat)
    requires Fit(items, d, rank) && Sorted(items, rank) && k < |d| && start <= j < |items|
    requires if k == 0 then start == 0 else Seat(items, d, rank, start) == k
    requires Below(items, d, rank, k, start, j + 1)
    ensures Seat(items, d, rank, j) == k
  {
    hide Fit, Sorted, Below, HomeOf, Seat;
    if k == 0 || start < j {
      BelowAt(items, d, rank, k, start, j);
      HomeAtMost(items, d, rank, k, j);
    }
    if start < j {
      BelowLess(items, d, rank, k, start, j);
      FirstSeats(items, d, rank, k, start, j - 1);
      HomesRise(items, d, rank, j - 1, j);
      SeatIs(items, d, rank, j);
    } else if k == 0 {
      SeatIs(items, d, rank, j);
    }
  }

  lemma SeatIs<T>(items: seq<T>, d: seq<int>, rank: T -> int, j: nat)
    requires Fit(items, d, rank) && j < |items|
    ensures Seat(items, d, rank, j) ==
              Min(HomeOf(items, d, rank, j), if j == 0 then 1 else Seat(items, d, rank, j - 1) + 1)
  {
  }

  lemma BelowAt<T>(items: seq<T>, d: seq<int>, rank: T -> int, k: nat, start: nat, j: nat)
    requires k < |d| && j < |items| && start <= j && (k == 0 || start < j) && Below(items, d, rank, k, start, j + 1)
    ensures rank(items[j]) <= d[k]
  {
  }

  lemma BelowLess<T>(items: seq<T>, d: seq<int>, rank: T -> int, k: nat, start: nat, j: nat)
    requires k < |d| && j < |items| && Below(items, d, rank, k, start, j + 1)
    ensures Below(items, d, rank, k, start, j)
  {
  }

  lemma HomeAtMost<T>(items: seq<T>, d: seq<int>, rank: T -> int, k: nat, j: nat)
    requires Fit(items, d, rank) && k < |d| && j < |items| && rank(items[j]) <= d[k]
    ensures HomeOf(items, d, rank, j) <= k
  {
  }

  lemma HomeBeyond<T>(items: seq<T>, d: seq<int>, rank: T -> int, k: nat, j: nat)
    requires Fit(items, d, rank) && k < |d| && j < |items| && rank(items[j]) > d[k]
    ensures HomeOf(items, d, rank, j) > k
  {
    HomeAbove(d, rank(items[j]), k);
  }

  /** The item that opens the next basket. */
  lemma NextSeat<T>(items: seq<T>, d: seq<int>, rank: T -> int, k: nat, start: nat, e: nat)
    requires Fit(items, d, rank) && Sorted(items, rank) && k < |d| && start <= e < |items| && (k > 0 ==> start < e)
    requires if k == 0 then start == 0 else Seat(items, d, rank, start) == k
    requires Below(items, d, rank, k, start, e) && rank(items[e]) > d[k]
    ensures Seat(items, d, rank, e) == k + 1
  {
    hide Fit, Sorted, Below;
    HomeBeyond(items, d, rank, k, e);
    if e > start {
      FirstSeats(items, d, rank, k, start, e - 1);
    }
  }

  ghost predicate Seated<T>(items: seq<T>, d: seq<int>, rank: T -> int, bs: seq<Basket>, k: nat)
    requires Fit(items, d, rank)
  {
    forall i, j :: 0 <= i < |bs| && bs[i].start <= j < bs[i].start + bs[i].count && j < |items| ==>
      Seat(items, d, rank, j) == k + i
  }

  lemma SeatedCons<T>(items: seq<T>, d: seq<int>, rank: T -> int, b: Basket, rest: seq<Basket>, k: nat)
    requires Fit(items, d, rank)
    requires forall j :: b.start <= j < b.start + b.count && j < |items| ==> Seat(items, d, rank, j) == k
    requires Seated(items, d, rank, rest, k + 1)
    ensures Seated(items, d, rank, [b] + rest, k)
  {
    hide Fit, Seat;
    var bs := [b] + rest;
    forall i, j | 0 <= i < |bs| && bs[i].start <= j < bs[i].start + bs[i].count && j < |items|
      ensures Seat(items, d, rank, j) == k + i
    {
      assert i > 0 ==> bs[i] == rest[i - 1];
    }
  }

  /** The loop puts every item into the basket of its seat. */
  lemma {:induction false} FillSeats<T>(items: seq<T>, d: seq<int>, rank: T -> int, k: nat, start: nat)
    requires Fit(items, d, rank) && Sorted(items, rank) && k < |d| && start <= |items| && (k > 0 ==> start < |items|)
    requires if k == 0 then start == 0 else Seat(items, d, rank, start) == k
    ensures Seated(items, d, rank, Fill(items, d, rank, k, start), k)
    decreases |d| - k
  {
    hide Fit, Sorted, Fill, NextAbove, Seat;
    var e := NextAbove(items, rank, d[k], if k == 0 then start else start + 1);
    assert Below(items, d, rank, k, start, e);
    FillFirst(items, d, rank, k, start, e);
    forall j | start <= j < e
      ensures Seat(items, d, rank, j) == k
    {
      FirstSeats(items, d, rank, k, start, j);
    }
    var rest := if e == |items| || k + 1 == |d| then [] else Fill(items, d, rank, k + 1, e);
    if e < |items| && k + 1 < |d| {
      NextSeat(items, d, rank, k, start, e);
      FillSeats(items, d, rank, k + 1, e);
    }
    SeatedCons(items, d, rank, Basket(start, e - start), rest, k);
  }

  /** An item is in basket b if and only if b is its seat. */
  lemma InBasketIffSeat<T>(items: seq<T>, d: seq<int>, rank: T -> int, j: nat, b: nat)
    requires Fit(items, d, rank) && Sorted(items, rank) && j < |items|
    ensures var bs := Fill(items, d, rank, 0, 0);
            b < |bs| && bs[b].start <= j < bs[b].start + bs[b].count <==> b == Seat(items, d, rank, j)
  {
    hide Sorted, Fill, Seat;
    var bs := Fill(items, d, rank, 0, 0);
    FillSeats(items, d, rank, 0, 0);
    FillContiguous(items, d, rank, 0, 0);
    var i := BasketOf(bs, 0, |items|, j);
    assert Seat(items, d, rank, j) == i;
  }

  lemma {:induction false} BasketOf(bs: seq<Basket>, from: nat, to: nat, j: nat) returns (i: nat)
    requires Contiguous(bs, from, to) && from <= j < to
    ensures i < |bs| && bs[i].start <= j < bs[i].start + bs[i].count
    decreases |bs|
  {
    if j < from + bs[0].count {
      i := 0;
    } else {
      i := BasketOf(bs[1..], from + bs[0].count, to, j);
      i := i + 1;
    }
  }

  // ---- equal hashes in one buffer

  /** Items of equal hash are in the same basket. */
  ghost predicate Together<T>(items: seq<T>, d: seq<int>, rank: T -> int)
    requires Fit(items, d, rank)
  {
    forall i, j :: 0 <= i < j < |items| && rank(items[i]) == rank(items[j]) ==>
        Seat(items, d, rank, i) == Seat(items, d, rank, j)
  }

  /** Place s holds the first of several items with its hash. */
  ghost predicate FirstOfSeveral<T>(items: seq<T>, rank: T -> int, s: nat) {
    && s + 1 < |items| && rank(items[s + 1]) == rank(items[s])
    && (s > 0 ==> rank(items[s - 1]) < rank(items[s]))
  }

  /** The baskets before place s are near enough for its item to get home. */
  ghost predicate CanReach<T>(items: seq<T>, d: seq<int>, rank: T -> int, s: nat)
    requires Fit(items, d, rank) && s < |items|
  {
    && HomeOf(items, d, rank, s) <= s + 1
    && forall i :: 0 <= i < s ==> HomeOf(items, d, rank, s) <= HomeOf(items, d, rank, i) + s - i
  }

  lemma {:induction false} SeatAtLeast<T>(items: seq<T>, d: seq<int>, rank: T -> int, s: nat, m: int)
    requires Fit(items, d, rank) && s < |items|
    ensures Seat(items, d, rank, s) >= m <==>
            m <= s + 1 && forall i :: 0 <= i <= s ==> m <= HomeOf(items, d, rank, i) + s - i
  {
    hide Fit, HomeOf;
    if s > 0 {
      SeatAtLeast(items, d, rank, s - 1, m - 1);
      if Seat(items, d, rank, s) >= m {
        forall i | 0 <= i <= s
          ensures m <= HomeOf(items, d, rank, i) + s - i
        {
          assert i < s ==> m - 1 <= HomeOf(items, d, rank, i) + (s - 1) - i;
        }
      }
      if m <= s + 1 && forall i :: 0 <= i <= s ==> m <= HomeOf(items, d, rank, i) + s - i {
        assert m <= HomeOf(items, d, rank, s) + s - s;
        assert forall i :: 0 <= i <= s - 1 ==> m - 1 <= HomeOf(items, d, rank, i) + (s - 1) - i;
      }
    }
  }

  lemma AtHomeIffReach<T>(items: seq<T>, d: seq<int>, rank: T -> int, s: nat)
    requires Fit(items, d, rank) && s < |items|
    ensures Seat(items, d, rank, s) == HomeOf(items, d, rank, s) <==> CanReach(items, d, rank, s)
  {
    hide Fit, HomeOf, Seat;
    SeatAtLeast(items, d, rank, s, HomeOf(items, d, rank, s));
  }

  /** Once at home, all that follow with the same hash are. */
  lemma {:induction false} StayHome<T>(items: seq<T>, d: seq<int>, rank: T -> int, s: nat, j: nat)
    requires Fit(items, d, rank) && Sorted(items, rank) && s <= j < |items| && rank(items[s]) == rank(items[j])
    requires Seat(items, d, rank, s) == HomeOf(items, d, rank, s)
    ensures Seat(items, d, rank, j) == HomeOf(items, d, rank, s)
  {
    hide Fit;
    if s < j {
      assert rank(items[j - 1]) == rank(items[s]);
      StayHome(items, d, rank, s, j - 1);
    }
  }

  /** The first place of an item's hash. */
  lemma {:induction false} FirstPlace<T>(items: seq<T>, rank: T -> int, i: nat) returns (s: nat)
    requires Sorted(items, rank) && i < |items|
    ensures s <= i && rank(items[s]) == rank(items[i]) && (s > 0 ==> rank(items[s - 1]) < rank(items[s]))
  {
    if i == 0 || rank(items[i - 1]) < rank(items[i]) {
      s := i;
    } else {
      s := FirstPlace(items, rank, i - 1);
    }
  }

  /** Equal hashes of a buffer stay together exactly when each hash that occurs more than once can
      get home from the baskets before it. */
  lemma TogetherIff<T>(items: seq<T>, d: seq<int>, rank: T -> int)
    requires Fit(items, d, rank) && Sorted(items, rank)
    ensures Together(items, d, rank) <==>
            forall s: nat :: FirstOfSeveral(items, rank, s) ==> CanReach(items, d, rank, s)
  {
    hide Fit, Sorted, CanReach, HomeOf, Seat;
    if Together(items, d, rank) {
      forall s: nat | FirstOfSeveral(items, rank, s)
        ensures CanReach(items, d, rank, s)
      {
        SeatNext(items, d, rank, s);
        AtHomeIffReach(items, d, rank, s);
      }
    }
    if forall s: nat :: FirstOfSeveral(items, rank, s) ==> CanReach(items, d, rank, s) {
      forall i, j | 0 <= i < j < |items| && rank(items[i]) == rank(items[j])
        ensures Seat(items, d, rank, i) == Seat(items, d, rank, j)
      {
        var s := FirstPlace(items, rank, i);
        Between(items, rank, s, j);
        assert FirstOfSeveral(items, rank, s);
        AtHomeIffReach(items, d, rank, s);
        StayHome(items, d, rank, s, i);
        StayHome(items, d, rank, s, j);
      }
    }
  }

  lemma SeatNext<T>(items: seq<T>, d: seq<int>, rank: T -> int, s: nat)
    requires Fit(items, d, rank) && s + 1 < |items| && rank(items[s + 1]) == rank(items[s])
    ensures Seat(items, d, rank, s + 1) == Seat(items, d, rank, s) <==>
            Seat(items, d, rank, s) == HomeOf(items, d, rank, s)
  {
    hide Fit;
  }

  lemma Between<T>(items: seq<T>, rank: T -> int, s: nat, j: nat)
    requires Sorted(items, rank) && s < j < |items| && rank(items[s]) == rank(items[j])
    ensures rank(items[s + 1]) == rank(items[s])
  {
    assert rank(items[s]) <= rank(items[s + 1]);
    assert s + 1 < j ==> rank(items[s + 1]) <= rank(items[j]);
  }

  /** A buffer that skips a reducer range and yet splits no hash. */
  lemma GapWithoutSplit()
    ensures var items, d, rank := [5], [1, 2, 9], (x: int) => x;
            Fit(items, d, rank) && Sorted(items, rank) && !NoGap(items, d, rank) && Together(items, d, rank)
  {
    var items, d, rank := [5], [1, 2, 9], (x: int) => x;
    assert Home(d, 5) == 2;
    assert !Visited(items, d, rank, 1);
  }

  /** The same hash in two buffers, each of which splits nothing, goes to two reducers. */
  lemma SplitOverChunks()
    ensures var d, rank := [1, 2, 9], (x: int) => x;
            && Fit([5], d, rank) && Sorted([5], rank) && Together([5], d, rank)
            && Fit([2, 5], d, rank) && Sorted([2, 5], rank) && Together([2, 5], d, rank)
            && Seat([5], d, rank, 0) == 1 && Seat([2, 5], d, rank, 1) == 2
  {
    var d, rank := [1, 2, 9], (x: int) => x;
    assert Home(d, 5) == 2 && Home(d, 2) == 1;
    assert Seat([2, 5], d, rank, 0) == 1;
  }
}
