/** What a pass of the scheduler's event manager does for the threads that wait on a condition or
    a semaphore. */
module EventDelivery {
  import opened PthTypes
  import opened PrioritySequence
  import EM = EventManager
  import opened Scheduler
  import opened SchedulerInvariant

  /** All events that threads wait for, in queue order, before the pass. */
  ghost function Before(s: State): EM.Ring
    requires WaitersLive(s)
  {
    EM.Flatten(Rings(s))
  }

  /** The same events after it. */
  ghost function After(s: State, polled: set<nat>, late: map<nat, Status>): EM.Ring
    requires WaitersLive(s)
  {
    EM.Flatten(Polled(s, polled, late).1)
  }

  /** Which ring the j-th event of all is in. */
  function RingAt(rings: seq<EM.Ring>, j: nat): (i: nat)
    requires j < |EM.Flatten(rings)|
    ensures i < |rings|
  {
    var n := |rings| - 1;
    if j < |EM.Flatten(rings[..n])| then RingAt(rings[..n], j) else n
  }

  ghost predicate SameShape(rings: seq<EM.Ring>, rings': seq<EM.Ring>) {
    |rings| == |rings'| && forall i :: 0 <= i < |rings| ==> |rings[i]| == |rings'[i]|
  }

  lemma {:induction false} FlatLength(rings: seq<EM.Ring>, rings': seq<EM.Ring>)
    requires SameShape(rings, rings')
    ensures |EM.Flatten(rings)| == |EM.Flatten(rings')|
  {
    if rings != [] {
      FlatLength(rings[..|rings| - 1], rings'[..|rings| - 1]);
    }
  }

  /** An event that is no longer pending shows in its ring. */
  lemma {:induction false} FlatAt(rings: seq<EM.Ring>, rings': seq<EM.Ring>, j: nat)
    requires SameShape(rings, rings') && j < |EM.Flatten(rings)| == |EM.Flatten(rings')|
    ensures EM.Flatten(rings')[j].status != Pending ==> EM.AnyOccurred(rings'[RingAt(rings, j)])
  {
    var n := |rings| - 1;
    FlatLength(rings[..n], rings'[..n]);
    if j < |EM.Flatten(rings[..n])| {
      FlatAt(rings[..n], rings'[..n], j);
    } else {
      var k := j - |EM.Flatten(rings[..n])|;
      assert EM.Flatten(rings')[j] == rings'[n][k];
    }
  }

  /** The pass, said of all events at once. */
  lemma PassFlat(s: State, polled: set<nat>, late: map<nat, Status>)
    requires WaitersLive(s)
    ensures var (env1, evs1) := EM.MarkAll(s.env, Before(s), PollOf(s, polled));
            && EM.CleanAll(env1, evs1, late) == (EventPass(s, polled, late).env, After(s, polled, late))
            && |After(s, polled, late)| == |Before(s)|
            && SameShape(Rings(s), Polled(s, polled, late).1)
  {
    hide EM.MarkRings, EM.CleanRings, EM.Flatten, WakeTcbs, WakeInto, Keep, Woken;
    var (env1, rings1) := EM.MarkRings(s.env, Rings(s), PollOf(s, polled));
    EM.MarkRingsFlat(s.env, Rings(s), PollOf(s, polled));
    EM.CleanRingsFlat(env1, rings1, late);
  }

  /** The thread whose event is the j-th of all. */
  ghost function Owner(s: State, j: nat): Tid
    requires WaitersLive(s) && j < |Before(s)|
  {
    s.wq[RingAt(Rings(s), j)].item
  }

  ghost predicate ReadyNow(s: State, t: Tid) {
    In(s, RQ, t) && t in s.tcbs && s.tcbs[t].state == Ready
  }

  /** Whoever has an event that is no longer pending is ready afterwards. */
  lemma OwnerReady(s: State, polled: set<nat>, late: map<nat, Status>, j: nat)
    requires Inv(s) && WaitersLive(s) && j < |Before(s)| == |After(s, polled, late)|
    requires After(s, polled, late)[j].status != Pending
    ensures ReadyNow(EventPass(s, polled, late), Owner(s, j))
  {
    hide EM.MarkRings, EM.CleanRings, EM.Flatten, EM.AnyOccurred, WakeInto, Keep, Inv, RingAt, Woken;
    PassFlat(s, polled, late);
    var rings := Polled(s, polled, late).1;
    FlatAt(Rings(s), rings, j);
    var i := RingAt(Rings(s), j);
    var t := s.wq[i].item;
    AtPlace(s, i);
    RingAfter(s, rings, i);
    EventPassWakes(s, polled, late, t);
  }

  lemma PlaceOf(s: State, x: Tid) returns (i: nat)
    requires Inv(s) && In(s, WQ, x)
    ensures i < |s.wq| && s.wq[i].item == x && Distinct(s.wq)
  {
    assert s.Get(WQ) == s.wq;
    i :| 0 <= i < |s.wq| && s.wq[i].item == x;
  }

  lemma AtPlace(s: State, i: nat)
    requires Inv(s) && i < |s.wq|
    ensures In(s, WQ, s.wq[i].item) && Distinct(s.wq)
  {
    assert s.Get(WQ) == s.wq;
  }

  lemma RingAfter(s: State, rings: seq<EM.Ring>, i: nat)
    requires |rings| == |s.wq| && Distinct(s.wq) && i < |s.wq|
    ensures s.wq[i].item in Items(s.wq) && RingOf(s, rings, s.wq[i].item) == rings[i]
  {
    assert s.wq[i].item in Items(s.wq);
  }

  ghost predicate Ended(before: EM.Ring, after: EM.Ring, c: nat, j: nat) {
    j < |before| && j < |after| && EM.WaitsOn(before[j], c) && !EM.WaitsOn(after[j], c)
  }

  /** No wait on a condition begins in a pass, and one that ends has its event occurred. */
  lemma OnlyEnds(s: State, polled: set<nat>, late: map<nat, Status>, c: nat)
    requires WaitersLive(s)
    ensures |Before(s)| == |After(s, polled, late)|
    ensures forall j :: 0 <= j < |Before(s)| && EM.WaitsOn(After(s, polled, late)[j], c) ==> EM.WaitsOn(Before(s)[j], c)
    ensures forall j: nat :: Ended(Before(s), After(s, polled, late), c, j) ==>
              After(s, polled, late)[j].status != Pending
  {
    hide EM.MarkAll, EM.CleanAll, EM.Flatten, EventPass;
    PassFlat(s, polled, late);
    var (env1, evs1) := EM.MarkAll(s.env, Before(s), PollOf(s, polled));
    EM.MarkFrame(s.env, Before(s), PollOf(s, polled));
    EM.CleanFrame(env1, evs1, late);
  }

  /** A fresh plain signal on which somebody waits: exactly one event stops waiting, its thread is
      ready, and the signal is gone. */
  lemma SignalWakesOne(s: State, polled: set<nat>, late: map<nat, Status>, c: nat) returns (j: nat)
    requires Inv(s) && WaitersLive(s) && EM.Signal(s.env, c) && !s.env.conds[c].handled && EM.Waiting(Before(s), c) > 0
    ensures var s' := EventPass(s, polled, late);
            var after := After(s, polled, late);
            && c in s'.env.conds && s'.env.conds[c] == EM.Condition(false, false, false)
            && EM.Waiting(after, c) == EM.Waiting(Before(s), c) - 1
            && Ended(Before(s), after, c, j) && EM.Waiting(Before(s)[..j], c) == 0
            && (forall i: nat :: Ended(Before(s), after, c, i) ==> i == j)
            && ReadyNow(s', Owner(s, j))
  {
    hide EM.MarkAll, EM.CleanAll, EM.Flatten, EM.Waiting, EventPass, Inv, ReadyNow, Owner;
    var before, after := Before(s), After(s, polled, late);
    PassFlat(s, polled, late);
    OnlyEnds(s, polled, late, c);
    var (env1, evs1) := EM.MarkAll(s.env, before, PollOf(s, polled));
    EM.SignalDelivered(s.env, before, PollOf(s, polled), late, c);
    EM.CleanWaiting(env1, evs1, late, c);
    j := EM.WaiterExists(before, c);
    EM.SignalMarksFirst(s.env, before, PollOf(s, polled), c, j);
    EM.CleanFrame(env1, evs1, late);
    assert Ended(before, after, c, j);
    forall i: nat | Ended(before, after, c, i)
      ensures i == j
    {
      if i < j {
        EM.OneEnded(before, after, c, i, j);
      } else if j < i {
        EM.OneEnded(before, after, c, j, i);
      }
    }
    OwnerReady(s, polled, late, j);
  }

  /** A broadcast on which somebody waits: nobody waits any more, everybody who did is ready, and
      the broadcast is gone. */
  lemma BroadcastWakesAll(s: State, polled: set<nat>, late: map<nat, Status>, c: nat)
    requires Inv(s) && WaitersLive(s) && EM.Broadcast(s.env, c) && EM.Waiting(Before(s), c) > 0
    ensures var s' := EventPass(s, polled, late);
            && c in s'.env.conds && s'.env.conds[c] == EM.Condition(false, false, false)
            && EM.Waiting(After(s, polled, late), c) == 0
            && forall j :: 0 <= j < |Before(s)| && EM.WaitsOn(Before(s)[j], c) ==> ReadyNow(s', Owner(s, j))
  {
    hide EM.MarkAll, EM.CleanAll, EM.Flatten, EM.Waiting, EventPass, Inv, ReadyNow, Owner;
    var before, after := Before(s), After(s, polled, late);
    PassFlat(s, polled, late);
    OnlyEnds(s, polled, late, c);
    var (env1, evs1) := EM.MarkAll(s.env, before, PollOf(s, polled));
    EM.BroadcastDelivered(s.env, before, PollOf(s, polled), late, c);
    EM.CleanWaiting(env1, evs1, late, c);
    forall j | 0 <= j < |before| && EM.WaitsOn(before[j], c)
      ensures ReadyNow(EventPass(s, polled, late), Owner(s, j))
    {
      EM.NobodyWaits(after, c, j);
      assert Ended(before, after, c, j);
      OwnerReady(s, polled, late, j);
    }
  }

  ghost predicate Asks(ev: EM.Event, x: nat) {
    ev.status == Pending && ev.kind.Sem? && ev.kind.s == x
  }

  /** A semaphore drops by exactly what was granted; who got it is ready, and who still waits asks
      for more than is left. */
  lemma SemaphoreGrants(s: State, polled: set<nat>, late: map<nat, Status>, x: nat)
    requires Inv(s) && WaitersLive(s) && x in s.env.sems
    ensures |Before(s)| == |After(s, polled, late)|
    ensures var s', after := EventPass(s, polled, late), After(s, polled, late);
            && x in s'.env.sems
            && s'.env.sems[x].count + EM.Granted(Before(s), after, x) == s.env.sems[x].count
            && (forall j :: 0 <= j < |after| && Asks(Before(s)[j], x) && !Asks(after[j], x) ==>
                ReadyNow(s', Owner(s, j)))
            && (s.env.sems[x].initialized ==>
                  forall j :: 0 <= j < |after| && Asks(after[j], x) ==> after[j].kind.count > s'.env.sems[x].count)
  {
    hide EM.MarkAll, EM.CleanAll, EM.Flatten, EM.Granted, EventPass, Inv, ReadyNow, Owner;
    var before, after := Before(s), After(s, polled, late);
    PassFlat(s, polled, late);
    var (env1, evs1) := EM.MarkAll(s.env, before, PollOf(s, polled));
    EM.MarkFrame(s.env, before, PollOf(s, polled));
    EM.CleanFrame(env1, evs1, late);
    EM.SemaphoreBalance(s.env, before, PollOf(s, polled), x);
    EM.CleanGranted(before, env1, evs1, late, x);
    forall j | 0 <= j < |after| && Asks(before[j], x) && !Asks(after[j], x)
      ensures ReadyNow(EventPass(s, polled, late), Owner(s, j))
    {
      OwnerReady(s, polled, late, j);
    }
  }
}
