/** What one pass of the scheduler's event manager makes of every single event, said of the events
    and not of the passes. */
module EventFates {
  import opened PthTypes
  import opened PrioritySequence
  import EM = EventManager
  import opened Scheduler
  import opened SchedulerInvariant
  import opened EventDelivery

  // ---- marking

  /** A plain signal counts as handled once somebody waited for it. */
  function Handled(k: EM.Condition, somebody: bool): EM.Condition {
    if k.signaled && !k.broadcast && somebody then k.(handled := true) else k
  }

  lemma {:induction false} CondAfter(env: EM.Env, evs: EM.Ring, polled: EM.Poll, c: nat)
    ensures var env' := EM.MarkAll(env, evs, polled).0;
            && (c in env'.conds <==> c in env.conds)
            && (c in env.conds ==> env'.conds[c] == Handled(env.conds[c], EM.Waiting(evs, c) > 0))
  {
    if evs != [] {
      CondAfter(env, evs[..|evs| - 1], polled, c);
    }
  }

  lemma {:induction false} SemAfter(env: EM.Env, evs: EM.Ring, polled: EM.Poll, x: nat)
    ensures var (env', evs') := EM.MarkAll(env, evs, polled);
            && (x in env'.sems <==> x in env.sems)
            && (x in env.sems ==>
                  && env'.sems[x].initialized == env.sems[x].initialized
                  && env'.sems[x].count + EM.Granted(evs, evs', x) == env.sems[x].count)
  {
    if evs != [] {
      var n := |evs| - 1;
      SemAfter(env, evs[..n], polled, x);
      var (env1, evs1) := EM.MarkAll(env, evs[..n], polled);
      var (env2, ev) := EM.Mark(env1, evs[n], polled);
      assert (evs1 + [ev])[..n] == evs1;
    }
  }

  /** What has to be the case for a pending event to occur in the first pass: outside events and dead
      threads as they were found; a signal for the first who waits, a broadcast for all; a semaphore
      for those who find enough left by the ones before them. */
  ghost predicate Due(env: EM.Env, evs: EM.Ring, evs': EM.Ring, polled: EM.Poll, j: nat)
    requires j < |evs| == |evs'|
  {
    match evs[j].kind
    case Polled => evs[j].id in polled.ids
    case End(target) => if target.None? then exists t :: t in polled.dead else target.value in polled.dead
    case Late => false
    case Cond(c) =>
      && c in env.conds && env.conds[c].signaled
      && (!env.conds[c].broadcast ==> !env.conds[c].handled && EM.Waiting(evs[..j], c) == 0)
    case Sem(x, count, _) =>
      && x in env.sems && env.sems[x].initialized
      && EM.Granted(evs[..j], evs'[..j], x) + count <= env.sems[x].count
  }

  ghost predicate Marked(env: EM.Env, evs: EM.Ring, evs': EM.Ring, polled: EM.Poll, j: nat)
    requires j < |evs| == |evs'|
  {
    evs'[j] == if evs[j].status == Pending && Due(env, evs, evs', polled, j)
               then evs[j].(status := Occurred) else evs[j]
  }

  lemma {:induction false} MarkFate(env: EM.Env, evs: EM.Ring, polled: EM.Poll, j: nat)
    requires j < |evs|
    ensures Marked(env, evs, EM.MarkAll(env, evs, polled).1, polled, j)
  {
    var n := |evs| - 1;
    var (env1, evs1) := EM.MarkAll(env, evs[..n], polled);
    var evs' := EM.MarkAll(env, evs, polled).1;
    assert evs'[..n] == evs1;
    if j < n {
      MarkFate(env, evs[..n], polled, j);
      assert evs[..n][..j] == evs[..j] && evs1[..j] == evs'[..j];
    } else {
      match evs[n].kind
      case Cond(c) => CondAfter(env, evs[..n], polled, c);
      case Sem(x, _, _) => SemAfter(env, evs[..n], polled, x);
      case _ =>
    }
  }

  // ---- the second pass

  lemma {:induction false} CleanFate(env: EM.Env, evs: EM.Ring, late: map<nat, Status>, j: nat)
    requires j < |evs|
    ensures EM.CleanAll(env, evs, late).1[j] ==
              if evs[j].status == Pending && evs[j].kind.Late? && evs[j].id in late
              then evs[j].(status := late[evs[j].id]) else evs[j]
  {
    if j < |evs| - 1 {
      CleanFate(env, evs[..|evs| - 1], late, j);
    }
  }

  lemma {:induction false} CleanPrefix(env: EM.Env, evs: EM.Ring, late: map<nat, Status>, j: nat)
    requires j <= |evs|
    ensures EM.CleanAll(env, evs[..j], late).1 == EM.CleanAll(env, evs, late).1[..j]
  {
    if j < |evs| {
      var n := |evs| - 1;
      CleanPrefix(env, evs[..n], late, j);
      assert evs[..n][..j] == evs[..j];
    } else {
      assert evs[..j] == evs;
    }
  }

  // ---- the whole pass

  /** The status of the j-th event after a pass. */
  ghost function Fate(s: State, polled: set<nat>, late: map<nat, Status>, j: nat): Status
    requires WaitersLive(s) && j < |Before(s)| == |After(s, polled, late)|
  {
    var ev := Before(s)[j];
    if ev.status != Pending then ev.status
    else if ev.kind.Late? then (if ev.id in late then late[ev.id] else Pending)
    else if Due(s.env, Before(s), After(s, polled, late), PollOf(s, polled), j) then Occurred
    else Pending
  }

  /** Every event has after the pass the status that is its due, and is otherwise as it was. */
  lemma PassFate(s: State, polled: set<nat>, late: map<nat, Status>, j: nat)
    requires WaitersLive(s) && j < |Before(s)|
    ensures |After(s, polled, late)| == |Before(s)|
    ensures After(s, polled, late)[j] == Before(s)[j].(status := Fate(s, polled, late, j))
  {
    hide EM.MarkAll, EM.CleanAll, EM.Flatten, EM.Waiting, EM.Granted, EventPass, Rings, PollOf;
    PassFlat(s, polled, late);
    var before, after := Before(s), After(s, polled, late);
    var (env1, evs1) := EM.MarkAll(s.env, before, PollOf(s, polled));
    MarkFate(s.env, before, PollOf(s, polled), j);
    CleanFate(env1, evs1, late, j);
    if before[j].kind.Sem? {
      CleanPrefix(env1, evs1, late, j);
      EM.MarkFrame(s.env, before, PollOf(s, polled));
      EM.CleanGranted(before[..j], env1, evs1[..j], late, before[j].kind.s);
    }
  }

  // ---- thread by thread

  /** The place of the k-th event of the i-th ring among all events. */
  function Place(rings: seq<EM.Ring>, i: nat, k: nat): nat
    requires i <= |rings|
  {
    |EM.Flatten(rings[..i])| + k
  }

  lemma {:induction false} PlaceIn(rings: seq<EM.Ring>, i: nat, k: nat)
    requires i < |rings| && k < |rings[i]|
    ensures Place(rings, i, k) < |EM.Flatten(rings)| && EM.Flatten(rings)[Place(rings, i, k)] == rings[i][k]
  {
    var n := |rings| - 1;
    if i < n {
      PlaceIn(rings[..n], i, k);
      assert rings[..n][..i] == rings[..i];
    }
  }

  /** What becomes of the k-th event of the i-th waiting thread. */
  ghost function FateAt(s: State, polled: set<nat>, late: map<nat, Status>, i: nat, k: nat): Status
    requires WaitersLive(s) && i < |s.wq| && k < |s.tcbs[s.wq[i].item].ring|
  {
    PassFlat(s, polled, late);
    PlaceIn(Rings(s), i, k);
    Fate(s, polled, late, Place(Rings(s), i, k))
  }

  lemma ThreadFate(s: State, polled: set<nat>, late: map<nat, Status>, i: nat, k: nat)
    requires Inv(s) && WaitersLive(s) && i < |s.wq| && k < |s.tcbs[s.wq[i].item].ring|
    ensures var s', t := EventPass(s, polled, late), s.wq[i].item;
            && t in s'.tcbs && |s'.tcbs[t].ring| == |s.tcbs[t].ring|
            && s'.tcbs[t].ring[k] == s.tcbs[t].ring[k].(status := FateAt(s, polled, late, i, k))
  {
    hide EM.MarkRings, EM.CleanRings, EM.Flatten, Inv, Woken, WakeInto, Keep, Polled, Fate;
    var rings, rings' := Rings(s), Polled(s, polled, late).1;
    PassFlat(s, polled, late);
    PlaceIn(rings, i, k);
    PlaceIn(rings', i, k);
    FlatLength(rings[..i], rings'[..i]);
    PassFate(s, polled, late, Place(rings, i, k));
    AtPlace(s, i);
    RingAfter(s, rings', i);
  }

  /** A thread is woken if and only if somebody wants to cancel it or one of its events is due;
      otherwise its control block and its entry in the waiting queue are what they were. */
  lemma WokenIffDue(s: State, polled: set<nat>, late: map<nat, Status>, i: nat)
    requires Inv(s) && WaitersLive(s) && i < |s.wq|
    ensures var s', t := EventPass(s, polled, late), s.wq[i].item;
            if s.tcbs[t].cancelReq || exists k :: 0 <= k < |s.tcbs[t].ring| && FateAt(s, polled, late, i, k) != Pending
            then ReadyNow(s', t) && !In(s', WQ, t)
            else t in s'.tcbs && s'.tcbs[t] == s.tcbs[t] && s.wq[i] in s'.wq
  {
    hide Inv, EventPass, FateAt, In;
    var s', t := EventPass(s, polled, late), s.wq[i].item;
    AtPlace(s, i);
    EventPassWakes(s, polled, late, t);
    RingLength(s, polled, late, i);
    forall k | 0 <= k < |s.tcbs[t].ring|
      ensures s'.tcbs[t].ring[k] == s.tcbs[t].ring[k].(status := FateAt(s, polled, late, i, k))
    {
      ThreadFate(s, polled, late, i, k);
    }
    AllPending(s, t);
    if !EM.AnyOccurred(s'.tcbs[t].ring) {
      assert s'.tcbs[t].ring == s.tcbs[t].ring;
    }
    Unwoken(s, polled, late, i);
  }

  lemma RingLength(s: State, polled: set<nat>, late: map<nat, Status>, i: nat)
    requires Inv(s) && WaitersLive(s) && i < |s.wq|
    ensures var s', t := EventPass(s, polled, late), s.wq[i].item;
            t in s'.tcbs && |s'.tcbs[t].ring| == |s.tcbs[t].ring|
  {
    hide EM.MarkRings, EM.CleanRings, EM.Flatten, Inv, Woken, WakeInto, Keep, Polled;
    PassFlat(s, polled, late);
    AtPlace(s, i);
    RingAfter(s, Polled(s, polled, late).1, i);
  }

  /** A thread waits with nothing but pending events. */
  lemma AllPending(s: State, t: Tid)
    requires Inv(s) && In(s, WQ, t)
    ensures t in s.tcbs && forall k :: 0 <= k < |s.tcbs[t].ring| ==> s.tcbs[t].ring[k].status == Pending
  {
    hide Ordered, Covered, In;
    NotCurrent(s, WQ, t);
  }

  /** Of a thread that stays, the entry stays, and at most the ring changes. */
  lemma Unwoken(s: State, polled: set<nat>, late: map<nat, Status>, i: nat)
    requires Inv(s) && WaitersLive(s) && i < |s.wq|
    ensures var s', t := EventPass(s, polled, late), s.wq[i].item;
            && t in s'.tcbs && s'.tcbs[t] == s.tcbs[t].(ring := s'.tcbs[t].ring, state := s'.tcbs[t].state)
            && (!EM.AnyOccurred(s'.tcbs[t].ring) && !s.tcbs[t].cancelReq ==>
                  s.wq[i] in s'.wq && s'.tcbs[t].state == s.tcbs[t].state)
  {
    hide EM.AnyOccurred, Inv, Woken, WakeInto, Keep, Polled;
    var rings := Polled(s, polled, late).1;
    AtPlace(s, i);
    WokenMeaning(s, rings, s.wq[i].item);
    KeepFacts(s.wq, Woken(s, rings));
  }

  // ---- kind by kind

  ghost predicate HasEvent(s: State, t: Tid, k: nat) {
    In(s, WQ, t) && t in s.tcbs && k < |s.tcbs[t].ring|
  }

  /** After the pass the event has this status, and if that ends the wait the thread is ready. */
  ghost predicate Decided(s: State, s': State, t: Tid, k: nat, status: Status)
    requires HasEvent(s, t, k)
  {
    && t in s'.tcbs && k < |s'.tcbs[t].ring| && s'.tcbs[t].ring[k] == s.tcbs[t].ring[k].(status := status)
    && (status != Pending ==> ReadyNow(s', t))
  }

  lemma FateDecides(s: State, polled: set<nat>, late: map<nat, Status>, i: nat, k: nat)
    requires Inv(s) && WaitersLive(s) && i < |s.wq| && HasEvent(s, s.wq[i].item, k)
    ensures Decided(s, EventPass(s, polled, late), s.wq[i].item, k, FateAt(s, polled, late, i, k))
  {
    hide Inv, EventPass, FateAt, In;
    ThreadFate(s, polled, late, i, k);
    WokenIffDue(s, polled, late, i);
  }

  /** The fates of the kinds that do not depend on other events. */
  lemma SimpleFate(s: State, polled: set<nat>, late: map<nat, Status>, i: nat, k: nat)
    requires Inv(s) && WaitersLive(s) && i < |s.wq| && HasEvent(s, s.wq[i].item, k)
    ensures var ev, fate := s.tcbs[s.wq[i].item].ring[k], FateAt(s, polled, late, i, k);
            match ev.kind
            case Polled => fate == if ev.id in polled then Occurred else Pending
            case Late => fate == if ev.id in late then late[ev.id] else Pending
            case End(None) => fate == if s.dq != [] then Occurred else Pending
            case End(Some(x)) => fate == if In(s, DQ, x) then Occurred else Pending
            case _ => true
  {
    hide Inv, EM.Flatten, EM.Waiting, EM.Granted, EventPass;
    PassFlat(s, polled, late);
    PlaceIn(Rings(s), i, k);
    AtPlace(s, i);
    AllPending(s, s.wq[i].item);
    assert s.Get(DQ) == s.dq;
    if s.dq != [] {
      assert s.dq[0].item in Items(s.dq);
    }
  }

  /** A timer, message port, mutex or function event occurs if and only if it was found so, and then
      its thread is ready. */
  lemma PolledDecides(s: State, polled: set<nat>, late: map<nat, Status>, t: Tid, k: nat)
    requires Inv(s) && WaitersLive(s) && HasEvent(s, t, k) && s.tcbs[t].ring[k].kind.Polled?
    ensures Decided(s, EventPass(s, polled, late), t, k, if s.tcbs[t].ring[k].id in polled then Occurred else Pending)
  {
    hide Inv, EventPass, FateAt, In, Decided;
    var i := PlaceOf(s, t);
    SimpleFate(s, polled, late, i, k);
    FateDecides(s, polled, late, i, k);
  }

  /** A descriptor event gets the status that was found for it, failure included. */
  lemma LateDecides(s: State, polled: set<nat>, late: map<nat, Status>, t: Tid, k: nat)
    requires Inv(s) && WaitersLive(s) && HasEvent(s, t, k) && s.tcbs[t].ring[k].kind.Late?
    ensures var id := s.tcbs[t].ring[k].id;
            Decided(s, EventPass(s, polled, late), t, k, if id in late then late[id] else Pending)
  {
    hide Inv, EventPass, FateAt, In, Decided;
    var i := PlaceOf(s, t);
    SimpleFate(s, polled, late, i, k);
    FateDecides(s, polled, late, i, k);
  }

  /** The end of a thread occurs if and only if it is in the dead queue, that of any if somebody is. */
  lemma EndDecides(s: State, polled: set<nat>, late: map<nat, Status>, t: Tid, k: nat)
    requires Inv(s) && WaitersLive(s) && HasEvent(s, t, k) && s.tcbs[t].ring[k].kind.End?
    ensures var target := s.tcbs[t].ring[k].kind.target;
            var dead := if target.None? then s.dq != [] else In(s, DQ, target.value);
            Decided(s, EventPass(s, polled, late), t, k, if dead then Occurred else Pending)
  {
    hide Inv, EventPass, FateAt, In, Decided;
    var i := PlaceOf(s, t);
    SimpleFate(s, polled, late, i, k);
    FateDecides(s, polled, late, i, k);
  }

  // ---- conditions and semaphores afterwards

  /** After the pass a condition is cleared if it was signalled and one of its events has occurred, and
      otherwise as it was; no condition comes or goes. */
  lemma ConditionAfter(s: State, polled: set<nat>, late: map<nat, Status>, c: nat)
    requires WaitersLive(s)
    ensures var env' := EventPass(s, polled, late).env;
            && (c in env'.conds <==> c in s.env.conds)
            && (c in s.env.conds ==>
                  env'.conds[c] == if s.env.conds[c].signaled && EM.Answered(After(s, polled, late), c)
                                   then EM.Condition(false, false, false) else s.env.conds[c])
  {
    hide EM.MarkAll, EM.CleanAll, EM.Flatten, EM.Waiting, EventPass, Rings, PollOf, EM.Answered;
    PassFlat(s, polled, late);
    var before, poll := Before(s), PollOf(s, polled);
    var (env1, evs1) := EM.MarkAll(s.env, before, poll);
    CondAfter(s.env, before, poll, c);
    CleanDomain(env1, evs1, late, c);
    if c in s.env.conds {
      EM.CleanConsumes(env1, evs1, late, c);
      AnsweredAfter(env1, evs1, late, c);
      if EM.Signal(s.env, c) && EM.Waiting(before, c) > 0 && !s.env.conds[c].handled {
        FirstAnswered(s.env, before, poll, c);
      }
    }
  }

  lemma {:induction false} CleanDomain(env: EM.Env, evs: EM.Ring, late: map<nat, Status>, c: nat)
    ensures c in EM.CleanAll(env, evs, late).0.conds <==> c in env.conds
  {
    if evs != [] {
      CleanDomain(env, evs[..|evs| - 1], late, c);
    }
  }

  lemma FirstAnswered(env: EM.Env, evs: EM.Ring, polled: EM.Poll, c: nat)
    requires EM.Signal(env, c) && EM.Waiting(evs, c) > 0 && !env.conds[c].handled
    ensures EM.Answered(EM.MarkAll(env, evs, polled).1, c)
  {
    hide EM.MarkAll, EM.Waiting;
    var i := EM.WaiterExists(evs, c);
    EM.SignalMarksFirst(env, evs, polled, c, i);
    assert EM.MarkAll(env, evs, polled).1[i].kind == EM.Cond(c);
  }

  lemma AnsweredAfter(env: EM.Env, evs: EM.Ring, late: map<nat, Status>, c: nat)
    ensures EM.Answered(EM.CleanAll(env, evs, late).1, c) <==> EM.Answered(evs, c)
  {
    hide EM.CleanAll;
    EM.CleanFrame(env, evs, late);
    var evs' := EM.CleanAll(env, evs, late).1;
    assert forall i :: 0 <= i < |evs| && evs[i].kind == EM.Cond(c) ==> evs'[i] == evs[i];
    assert forall i :: 0 <= i < |evs| && evs'[i].kind == EM.Cond(c) ==> evs'[i] == evs[i];
  }

  /** No semaphore comes or goes, and each loses exactly what it granted. */
  lemma SemaphoreAfter(s: State, polled: set<nat>, late: map<nat, Status>, x: nat)
    requires WaitersLive(s)
    ensures |Before(s)| == |After(s, polled, late)|
    ensures var env' := EventPass(s, polled, late).env;
            && (x in env'.sems <==> x in s.env.sems)
            && (x in s.env.sems ==>
                  && env'.sems[x].initialized == s.env.sems[x].initialized
                  && env'.sems[x].count + EM.Granted(Before(s), After(s, polled, late), x) == s.env.sems[x].count)
  {
    hide EM.MarkAll, EM.CleanAll, EM.Flatten, EM.Granted, EventPass, Rings, PollOf;
    PassFlat(s, polled, late);
    var (env1, evs1) := EM.MarkAll(s.env, Before(s), PollOf(s, polled));
    SemAfter(s.env, Before(s), PollOf(s, polled), x);
    EM.MarkFrame(s.env, Before(s), PollOf(s, polled));
    EM.CleanFrame(env1, evs1, late);
    EM.CleanGranted(Before(s), env1, evs1, late, x);
  }
}
