/** pth_yield to a particular thread (libports/pth-2.0.7/pth_lib.c).  The manual guarantees that a new or
    ready thread receives control at the next dispatching step; here is when it does. */
module DirectedYields {
  import opened Wrappers
  import opened PthTypes
  import opened PrioritySequence
  import EM = EventManager
  import opened Scheduler
  import opened SchedulerInvariant
  import opened SchedulerRuns
  import opened EventDelivery
  import opened SchedulerPromises
  import opened TurnWakes

  /** If t is first in the queue, then at priority p. */
  ghost predicate Lead(q: Queue<Tid>, t: Tid, p: int) {
    q != [] && (q[0].item == t ==> q[0].prio == p)
  }

  lemma HeadInsert(q: Queue<Tid>, prio: int, x: Tid)
    ensures Insert(q, prio, x) != []
    ensures q != [] ==> Insert(q, prio, x)[0] == if prio > q[0].prio then Entry(x, prio) else q[0]
  {
  }

  /** Woken threads come before t exactly if their base priority lets them. */
  lemma {:induction false} WakeHead(w: Queue<Tid>, ready: Queue<Tid>, wake: set<Tid>, base: Tid -> int, t: Tid, p: int)
    requires Lead(ready, t, p) && forall i :: 0 <= i < |w| ==> w[i].item != t
    ensures var r := WakeInto(w, ready, wake, base);
            && Lead(r, t, p)
            && (r[0].item == t <==>
                  ready[0].item == t && forall i :: 0 <= i < |w| && w[i].item in wake ==> base(w[i].item) + 1 <= p)
  {
    hide Insert;
    if w != [] {
      var v, x := w[..|w| - 1], w[|w| - 1].item;
      WakeHead(v, ready, wake, base, t, p);
      HeadInsert(WakeInto(v, ready, wake, base), base(x) + 1, x);
      assert forall i :: 0 <= i < |v| ==> v[i] == w[i];
    }
  }

  /** Nobody who waits in s and is ready in s' can get above priority p. */
  ghost predicate NoneAbove(s: State, s': State, p: int) {
    forall x :: In(s, WQ, x) && In(s', RQ, x) && x in s.tcbs ==> s.tcbs[x].prio + 1 <= p
  }

  lemma PassHead(s: State, polled: set<nat>, late: map<nat, Status>, t: Tid, p: int)
    requires Inv(s) && WaitersLive(s) && !In(s, WQ, t) && Lead(s.rq, t, p)
    ensures var s' := EventPass(s, polled, late);
            && Lead(s'.rq, t, p) && !In(s', WQ, t) && s'.nq == s.nq && s'.favourNew == s.favourNew
            && (s'.rq[0].item == t <==> s.rq[0].item == t && NoneAbove(s, s', p))
  {
    hide Inv, Polled, Woken, WakeTcbs, Keep, WakeInto, Lead;
    var s', woken := EventPass(s, polled, late), Woken(s, Polled(s, polled, late).1);
    assert s.Get(WQ) == s.wq && s'.Get(WQ) == s'.wq && s'.Get(RQ) == s'.rq;
    forall i | 0 <= i < |s.wq|
      ensures s.wq[i].item in Items(s.wq)
    {
    }
    WakeHead(s.wq, s.rq, woken, Base(s), t, p);
    PassItems(s, polled, late);
    Apart(s);
  }

  lemma Apart(s: State)
    requires Inv(s)
    ensures Items(s.wq) !! Items(s.rq) && forall x :: x in Items(s.wq) ==> x in s.tcbs
  {
    hide Ordered, Covered, Items;
    QueuesDisjoint(s, WQ, RQ);
    assert s.Get(WQ) == s.wq && s.Get(RQ) == s.rq;
    assert forall x :: x in Items(s.wq) ==> In(s, WQ, x);
  }

  /** Where a thread is that waited before a pass. */
  lemma WaiterAfter(s: State, polled: set<nat>, late: map<nat, Status>, x: Tid)
    requires Inv(s) && WaitersLive(s)
    ensures var s' := EventPass(s, polled, late);
            && (In(s, WQ, x) ==> (In(s', WQ, x) <==> !In(s', RQ, x)) && x in s.tcbs && x in s'.tcbs)
            && (In(s, WQ, x) ==> s'.tcbs[x].prio == s.tcbs[x].prio && (In(s', RQ, x) ==> ReadyNow(s', x)))
            && (In(s', WQ, x) ==> In(s, WQ, x))
  {
    hide Inv, EventPass, In;
    if In(s, WQ, x) {
      EventPassWakes(s, polled, late, x);
      PassMeaning(s, polled, late);
      Waiter(s, x);
    }
    OnlyLess(s, polled, late, x);
  }

  lemma Waiter(s: State, x: Tid)
    requires Inv(s) && In(s, WQ, x)
    ensures x in s.tcbs
  {
    hide Ordered, Covered, In;
    NotCurrent(s, WQ, x);
  }

  lemma OnlyLess(s: State, polled: set<nat>, late: map<nat, Status>, x: Tid)
    requires Inv(s) && WaitersLive(s)
    ensures In(EventPass(s, polled, late), WQ, x) ==> In(s, WQ, x)
  {
    hide Inv, Items, Polled, Woken, WakeTcbs, Keep, WakeInto;
    PassItems(s, polled, late);
    assert s.Get(WQ) == s.wq && EventPass(s, polled, late).Get(WQ) == EventPass(s, polled, late).wq;
  }

  lemma {:induction false} PassesHead(s: State, ps: seq<Pass>, t: Tid, p: int)
    requires Inv(s) && !In(s, WQ, t) && Lead(s.rq, t, p) && Passes(s, ps).Next?
    ensures var s' := Passes(s, ps).state;
            && Lead(s'.rq, t, p) && s'.nq == s.nq && s'.favourNew == s.favourNew
            && (s'.rq[0].item == t <==> s.rq[0].item == t && NoneAbove(s, s', p))
    decreases |ps|
  {
    hide Inv, EventPass, WaitersLive, In, Lead;
    if ps == [] {
      NobodyBoth(s, p);
    } else {
      var s1 := EventPass(s, ps[0].polled, ps[0].late);
      EventPassKeeps(s, ps[0].polled, ps[0].late);
      PassHead(s, ps[0].polled, ps[0].late, t, p);
      PassesHead(s1, ps[1..], t, p);
      forall x
        ensures In(s, WQ, x) && In(Passes(s1, ps[1..]).state, RQ, x) <==>
                In(s, WQ, x) && (In(s1, RQ, x) || (In(s1, WQ, x) && In(Passes(s1, ps[1..]).state, RQ, x)))
        ensures In(s, WQ, x) ==> x in s.tcbs && x in s1.tcbs && s1.tcbs[x].prio == s.tcbs[x].prio
        ensures In(s1, WQ, x) ==> In(s, WQ, x)
      {
        WaiterAfter(s, ps[0].polled, ps[0].late, x);
        if In(s, WQ, x) && In(s1, RQ, x) {
          PassesStayReady(s1, ps[1..], x);
        }
      }
    }
  }

  lemma NobodyBoth(s: State, p: int)
    requires Inv(s)
    ensures NoneAbove(s, s, p)
  {
    hide Ordered, Covered, In;
  }

  /** New threads come before t exactly if they are favoured or the standard priority lets them. */
  lemma DrainHead(nq: Queue<Tid>, rq: Queue<Tid>, favour: bool, t: Tid, p: int)
    requires Sorted(rq) && Lead(rq, t, p) && forall i :: 0 <= i < |nq| ==> nq[i].item != t
    ensures var r := DrainInto(nq, rq, favour);
            r != [] && (r[0].item == t <==> rq[0].item == t && (nq == [] || (!favour && PRIO_STD <= p)))
  {
    hide DrainInto, Sorted;
    if favour {
      DrainFavoured(nq, rq);
    } else {
      var k := Split(rq);
      DrainPlain(nq, rq, k);
    }
  }

  lemma Split(rq: Queue<Tid>) returns (k: nat)
    requires Sorted(rq)
    ensures k <= |rq| && forall i :: 0 <= i < k ==> rq[i].prio >= PRIO_STD
    ensures forall i :: k <= i < |rq| ==> rq[i].prio < PRIO_STD
  {
    k := Position(rq, PRIO_STD);
  }

  lemma HeadThere(q: Queue<Tid>, t: Tid, p: int)
    requires Lead(q, t, p)
    ensures q != []
  {
  }

  // ---- the whole call

  /** The priority at which the favoured ready thread stands when the next one is chosen: two above the
      best of the others, or one above its own if there are no others. */
  function FavouredPrio(rq: Queue<Tid>, t: Tid): int
    requires Contains(rq, t)
  {
    var others := Delete(rq, t);
    if others != [] then others[0].prio + 2 else rq[0].prio + 1
  }

  lemma FavouredHead(rq: Queue<Tid>, t: Tid)
    requires Contains(rq, t) && Sorted(rq)
    ensures Favorite(rq, t) != [] && Increase(Favorite(rq, t))[0] == Entry(t, FavouredPrio(rq, t))
  {
    hide Sorted, Insert;
    DeleteLength(rq, t);
    if |rq| > 1 {
      FavoriteInFront(rq, t);
    }
  }

  lemma DeleteLength(rq: Queue<Tid>, t: Tid)
    requires Contains(rq, t)
    ensures rq != [] && |Delete(rq, t)| == |rq| - 1 && (|rq| == 1 ==> rq[0].item == t)
  {
  }

  /** The state in which the scheduler loop finds the queues after the directed yield. */
  lemma YieldHead(s: State, t: Tid)
    requires Inv(s) && s.current.Some? && s.current.value in s.tcbs && In(s, RQ, t) && t in s.tcbs
    ensures Contains(s.rq, t)
    ensures var s0, c := Favour(s, t).0, s.tcbs[s.current.value];
            && s0.current == s.current && s0.tcbs == s.tcbs && s0.nq == s.nq && s0.favourNew == s.favourNew && Inv(s0)
            && var s1, p := Return(s0, Yields), FavouredPrio(s.rq, t);
               && Lead(s1.rq, t, p) && s1.nq == s.nq && s1.favourNew == s.favourNew && s1.tcbs == s.tcbs
               && (s1.rq[0].item == t <==> c.prio <= p)
  {
    hide Ordered, Placed, Covered, In, Contains, Favorite, Insert, Increase, FavouredPrio;
    assert s.Get(RQ) == s.rq;
    Whereabouts(s, t);
    NotCurrent(s, RQ, t);
    QueueDistinct(s, RQ);
    FavourKeeps(s, t);
    FavouredHead(s.rq, t);
    HeadInsert(Increase(Favorite(s.rq, t)), s.tcbs[s.current.value].prio, s.current.value);
  }

  /** A directed yield to a ready thread: it runs next if and only if the caller's base priority, those of
      the threads woken in the meantime, and the new threads do not come before it. */
  lemma YieldToReady(s: State, t: Tid, ps: seq<Pass>)
    requires Inv(s) && s.current.Some? && s.current.value in s.tcbs && In(s, RQ, t) && t in s.tcbs
    ensures Contains(s.rq, t) && Favour(s, t).0.current == s.current && s.current.value in Favour(s, t).0.tcbs
    ensures var s1, p, o := Return(Favour(s, t).0, Yields), FavouredPrio(s.rq, t), Round(Favour(s, t).0, Yields, ps);
            && Passes(s1, ps).Next? && o.Next?
            && (o.state.current == Some(t) <==>
                  && s.tcbs[s.current.value].prio <= p
                  && NoneAbove(s1, Passes(s1, ps).state, p)
                  && (s.nq == [] || (!s.favourNew && PRIO_STD <= p)))
  {
    hide Inv, In, Contains, Return, Favour, Passes, Dispatch, Lead, NoneAbove, FavouredPrio, DrainInto;
    YieldHead(s, t);
    var s0, p := Favour(s, t).0, FavouredPrio(s.rq, t);
    var s1 := Return(s0, Yields);
    ReturnKeeps(s0, Yields);
    ReadyAfter(s, t);
    PassesKeep(s1, ps);
    PassesHead(s1, ps, t, p);
    var s2 := Passes(s1, ps).state;
    DispatchKeeps(s2);
    HeadThere(s2.rq, t, p);
    DispatchMeaning(s2);
    Elsewhere(s, s2, t);
    DrainHead(s2.nq, s2.rq, s2.favourNew, t, p);
  }

  /** A thread of the ready queue waits in no other. */
  lemma ReadyAfter(s: State, t: Tid)
    requires Inv(s) && s.current.Some? && s.current.value in s.tcbs && In(s, RQ, t) && t in s.tcbs
    requires Favour(s, t).0.current == s.current && s.current.value in Favour(s, t).0.tcbs
    ensures !In(Return(Favour(s, t).0, Yields), WQ, t)
  {
    hide Ordered, Covered, Favorite, Insert, Increase, Contains;
    var s1 := Return(Favour(s, t).0, Yields);
    assert s1.Get(WQ) == s.Get(WQ);
    OnlyThere(s, RQ, t);
    assert !In(s, WQ, t);
  }

  lemma Elsewhere(s: State, s2: State, t: Tid)
    requires Inv(s) && In(s, RQ, t) && s2.nq == s.nq && Inv(s2)
    ensures Sorted(s2.rq) && forall i :: 0 <= i < |s2.nq| ==> s2.nq[i].item != t
  {
    hide Covered, Distinct;
    OnlyThere(s, RQ, t);
    assert s.Get(NQ) == s.nq && s2.Get(RQ) == s2.rq;
    assert !In(s, NQ, t);
    assert forall i :: 0 <= i < |s.nq| ==> s.nq[i].item in Items(s.nq);
  }

  /** A directed yield to a new thread.  With new threads favoured it runs next, whatever else happens;
      without, if and only if it is the only new thread and nobody of at least the standard priority is
      ready. */
  lemma YieldToNew(s: State, t: Tid, ps: seq<Pass>)
    requires Inv(s) && s.current.Some? && s.current.value in s.tcbs && In(s, NQ, t) && t in s.tcbs
    ensures Favour(s, t).0.current == s.current && s.current.value in Favour(s, t).0.tcbs
    ensures var s1, o := Return(Favour(s, t).0, Yields), Round(Favour(s, t).0, Yields, ps);
            && Passes(s1, ps).Next? && o.Next?
            && (o.state.current == Some(t) <==>
                  s.favourNew || (|s.nq| == 1 && forall e :: e in Passes(s1, ps).state.rq ==> e.prio < PRIO_STD))
  {
    hide Inv, In, Return, Favour, Passes, Dispatch, DrainInto, Contains, Delete;
    var s0 := Favour(s, t).0;
    FavouredNew(s, t);
    FavourKeeps(s, t);
    var s1 := Return(s0, Yields);
    ReturnKeeps(s0, Yields);
    YieldLeavesNew(s0);
    PassesKeep(s1, ps);
    PassesLeaveNew(s1, ps);
    var s2 := Passes(s1, ps).state;
    DispatchKeeps(s2);
    DispatchMeaning(s2);
    NewHead(s2, t);
  }

  /** The favoured new thread is first of the new ones. */
  lemma FavouredNew(s: State, t: Tid)
    requires Inv(s) && In(s, NQ, t) && t in s.tcbs
    ensures var s0 := Favour(s, t).0;
            |s0.nq| == |s.nq| > 0 && s0.nq[0].item == t && s0.favourNew == s.favourNew
  {
    hide Ordered, Placed, Covered, In, Favorite, Favour, Delete;
    FavourMeaning(s, t);
    assert s.Get(NQ) == s.nq && Favour(s, t).0.Get(NQ) == Favour(s, t).0.nq;
    DeleteLength(s.nq, t);
  }

  lemma YieldLeavesNew(s: State)
    requires s.current.Some? && s.current.value in s.tcbs
    ensures Return(s, Yields).nq == s.nq && Return(s, Yields).favourNew == s.favourNew
  {
    hide Insert, Increase;
  }

  lemma {:induction false} PassesLeaveNew(s: State, ps: seq<Pass>)
    requires Inv(s) && Passes(s, ps).Next?
    ensures Passes(s, ps).state.nq == s.nq && Passes(s, ps).state.favourNew == s.favourNew
    decreases |ps|
  {
    hide Inv, EventPass, WaitersLive, In, Holds;
    if ps != [] {
      PassMeaning(s, ps[0].polled, ps[0].late);
      EventPassKeeps(s, ps[0].polled, ps[0].late);
      var s1 := EventPass(s, ps[0].polled, ps[0].late);
      assert s1.Get(NQ) == s1.nq && s.Get(NQ) == s.nq;
      PassesLeaveNew(s1, ps[1..]);
    }
  }

  /** When the first of the new threads is the one chosen. */
  lemma NewHead(s: State, t: Tid)
    requires Inv(s) && s.nq != [] && s.nq[0].item == t
    ensures var r := DrainInto(s.nq, s.rq, s.favourNew);
            r != [] && (r[0].item == t <==>
                          s.favourNew || (|s.nq| == 1 && forall e :: e in s.rq ==> e.prio < PRIO_STD))
  {
    hide DrainInto, Placed, Covered;
    FirstOfNew(s);
    if s.favourNew {
      DrainFavoured(s.nq, s.rq);
    } else {
      var k := Split(s.rq);
      DrainPlain(s.nq, s.rq, k);
      if k > 0 {
        assert s.rq[0] in s.rq && s.rq[0].prio >= PRIO_STD;
      }
    }
  }

  lemma FirstOfNew(s: State)
    requires Inv(s)
    ensures Sorted(s.rq) && Distinct(s.nq) && (s.nq != [] && s.rq != [] ==> s.nq[0].item != s.rq[0].item)
  {
    hide Covered;
    QueuesDisjoint(s, NQ, RQ);
    assert s.Get(NQ) == s.nq && s.Get(RQ) == s.rq;
    if s.nq != [] && s.rq != [] {
      assert s.nq[0].item in Items(s.nq) && s.rq[0].item in Items(s.rq);
    }
  }

  /** Main, of base priority 5, runs; t, of base priority 0, is ready. */
  function TwoThreads(main: Tid, t: Tid): State {
    var c := Tcb(0, Ready, true, false, true, false, 0, []);
    State(map[main := c.(prio := 5), t := c],
          Some(main), [], [Entry(t, 0)], [], [], [], true, EM.Env(map[], map[]))
  }

  /** The guarantee fails: main yields to t, and main runs again. */
  lemma YieldIgnoredExample(main: Tid, t: Tid)
    requires main != t
    ensures var s := TwoThreads(main, t);
            && Inv(s) && Favour(s, t) == (s, None)
            && Round(s, Yields, []).Next? && Round(s, Yields, []).state.current == Some(main)
  {
    hide EventPass;
    var s := TwoThreads(main, t);
    TwoThreadsGood(main, t);
    assert s.rq[0].item == t;
    var s1 := Return(s, Yields);
    HeadInsert(Increase(s.rq), 5, main);
    assert s1.rq[0] == Entry(main, 5);
    assert Passes(s1, []) == Next(s1);
    assert Drain(s1).rq == s1.rq;
  }

  lemma TwoThreadsGood(main: Tid, t: Tid)
    requires main != t
    ensures Inv(TwoThreads(main, t))
  {
    var s := TwoThreads(main, t);
    forall n
      ensures Sorted(s.Get(n)) && Distinct(s.Get(n)) && Items(s.Get(n)) == if n == RQ then {t} else {}
    {
      if n == RQ {
        assert s.rq[0].item == t;
      }
    }
    assert In(s, RQ, t);
  }
}
