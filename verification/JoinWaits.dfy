/** What the wait of pth_join brings (libports/pth-2.0.7/pth_lib.c and pth_sched.c): when it ends, and
    what the join then finds. */
module JoinWaits {
  import opened Wrappers
  import opened PthTypes
  import opened PrioritySequence
  import EM = EventManager
  import opened Scheduler
  import opened SchedulerInvariant
  import opened SchedulerRuns
  import opened EventDelivery
  import opened EventFates

  // ---- the event of a join

  /** The event that a join waits for: the end of a thread, or of any. */
  function EndEvent(id: nat, target: Option<Tid>): EM.Event {
    EM.Event(id, EM.End(target), Pending)
  }

  ghost predicate Fulfilled(target: Option<Tid>, dead: set<Tid>) {
    match target case None => dead != {} case Some(t) => t in dead
  }

  /** A thread waits for nothing but the end of target, and nobody wants to cancel it. */
  ghost predicate Joining(s: State, x: Tid, id: nat, target: Option<Tid>) {
    In(s, WQ, x) && x in s.tcbs && s.tcbs[x].ring == [EndEvent(id, target)] && !s.tcbs[x].cancelReq
  }

  /** The wait of a join ends in a pass exactly when its thread, or any, is in the dead queue; and the
      pass leaves the dead queue alone. */
  lemma JoinWakes(s: State, polled: set<nat>, late: map<nat, Status>, x: Tid, id: nat, target: Option<Tid>)
    requires Inv(s) && WaitersLive(s) && Joining(s, x, id, target)
    ensures var s' := EventPass(s, polled, late);
            && s'.dq == s.dq
            && (if Fulfilled(target, Items(s.dq)) then ReadyNow(s', x) else Joining(s', x, id, target))
  {
    hide Inv, EventPass, FateAt, In;
    var i := PlaceOf(s, x);
    SimpleFate(s, polled, late, i, 0);
    WokenIffDue(s, polled, late, i);
    DeadLeftAlone(s, polled, late);
    Someone(s);
    if !Fulfilled(target, Items(s.dq)) {
      StillThere(EventPass(s, polled, late), s.wq[i]);
    }
  }

  lemma DeadLeftAlone(s: State, polled: set<nat>, late: map<nat, Status>)
    requires WaitersLive(s)
    ensures EventPass(s, polled, late).dq == s.dq
  {
    hide Polled, Keep, WakeInto, Woken, WakeTcbs;
  }

  lemma Someone(s: State)
    ensures Items(s.dq) != {} <==> s.dq != []
    ensures forall x :: In(s, DQ, x) <==> x in Items(s.dq)
  {
    assert s.Get(DQ) == s.dq;
    if s.dq != [] {
      assert s.dq[0].item in Items(s.dq);
    }
  }

  lemma StillThere(s: State, e: Entry<Tid>)
    requires e in s.wq
    ensures In(s, WQ, e.item)
  {
    assert s.Get(WQ) == s.wq;
    var k :| 0 <= k < |s.wq| && s.wq[k] == e;
    assert s.wq[k].item in Items(s.wq);
  }

  // ---- a dead thread stays until it is joined

  ghost predicate Lies(s: State, t: Tid, c: Tcb) {
    In(s, DQ, t) && t in s.tcbs && s.tcbs[t] == c
  }

  /** The steps that take t out of the dead queue. */
  ghost predicate Reaps(s: State, step: Step, t: Tid) {
    match step
    case AbortStep(x) => x == t
    case JoinStep(tid, waited) => JoinTarget(s, tid) == Some(t)
    case _ => false
  }

  lemma LiesFacts(s: State, t: Tid, c: Tcb)
    requires Inv(s) && Lies(s, t, c)
    ensures c.state == Dead && c.joinable && s.current != Some(t) && (forall n :: In(s, n, t) <==> n == DQ)
    ensures Distinct(s.dq) && t in Items(s.dq)
  {
    hide Ordered, Items, Distinct;
    NotCurrent(s, DQ, t);
    OnlyThere(s, DQ, t);
    QueueDistinct(s, DQ);
  }

  /** The same dead queue, the same control block. */
  lemma LiesStill(s: State, s': State, t: Tid, c: Tcb)
    requires Lies(s, t, c) && s'.dq == s.dq && t in s'.tcbs && s'.tcbs[t] == c
    ensures Lies(s', t, c)
  {
    assert s'.Get(DQ) == s.Get(DQ);
  }

  lemma LiesInserted(s: State, s': State, t: Tid, c: Tcb, prio: int, x: Tid)
    requires Lies(s, t, c) && s'.dq == Insert(s.dq, prio, x) && t in s'.tcbs && s'.tcbs[t] == c
    ensures Lies(s', t, c)
  {
    hide Insert, Items;
    InsertItems(s.dq, prio, x);
    assert s'.Get(DQ) == s'.dq && s.Get(DQ) == s.dq;
  }

  lemma LiesDeleted(s: State, s': State, t: Tid, c: Tcb, x: Tid)
    requires Lies(s, t, c) && Distinct(s.dq) && Contains(s.dq, x) && x != t && s'.dq == Delete(s.dq, x)
    requires t in s'.tcbs && s'.tcbs[t] == c
    ensures Lies(s', t, c)
  {
    hide Delete, Items, Contains, Distinct;
    DeleteFacts(s.dq, x);
    assert s'.Get(DQ) == s'.dq && s.Get(DQ) == s.dq;
  }

  lemma CancelLies(s: State, x: Tid, t: Tid, c: Tcb)
    requires Inv(s) && Lies(s, t, c) && x in s.tcbs && x != t
    ensures Lies(Cancel(s, x).0, t, c)
  {
    hide Inv, Lies, Insert, Cancel;
    LiesIn(s, t, c);
    CancelSpares(s, x, t);
    CancelQueue(s, x);
    var s' := Cancel(s, x).0;
    if s'.dq == s.dq {
      LiesStill(s, s', t, c);
    } else {
      LiesInserted(s, s', t, c, PRIO_STD, x);
    }
  }

  lemma CancelSpares(s: State, x: Tid, t: Tid)
    requires x in s.tcbs && t in s.tcbs && x != t
    ensures t in Cancel(s, x).0.tcbs && Cancel(s, x).0.tcbs[t] == s.tcbs[t]
  {
    hide Insert, Delete, Contains;
  }

  lemma CancelQueue(s: State, x: Tid)
    requires x in s.tcbs
    ensures Cancel(s, x).0.dq == s.dq || Cancel(s, x).0.dq == Insert(s.dq, PRIO_STD, x)
  {
    hide Insert, Delete, Contains;
  }

  lemma LiesIn(s: State, t: Tid, c: Tcb)
    requires Lies(s, t, c)
    ensures t in s.tcbs && s.tcbs[t] == c
  {
  }

  lemma CallLies(s: State, step: Step, t: Tid, c: Tcb)
    requires Inv(s) && s.current.Some? && Lies(s, t, c) && !Reaps(s, step, t) && Exec(s, step).Next?
    requires step.SpawnStep? || step.FavourStep? || step.SuspendStep? || step.ResumeStep?
    ensures Lies(Exec(s, step).state, t, c)
  {
    hide Inv, Lies, Insert, Delete, Contains, Favorite;
    LiesIn(s, t, c);
    LiesStill(s, Exec(s, step).state, t, c);
  }

  lemma SettingLies(s: State, step: Step, t: Tid, c: Tcb)
    requires Inv(s) && s.current.Some? && Lies(s, t, c) && Exec(s, step).Next?
    requires step.CancelPointStep? || step.CancelStateStep? || step.FavourNewStep? || step.SyncStep?
    ensures Lies(Exec(s, step).state, t, c)
  {
    hide Inv, Lies;
    LiesIn(s, t, c);
    LiesFacts(s, t, c);
    LiesStill(s, Exec(s, step).state, t, c);
  }

  lemma CancelStepLies(s: State, x: Tid, t: Tid, c: Tcb)
    requires Inv(s) && s.current.Some? && Lies(s, t, c) && Exec(s, CancelStep(x)).Next?
    ensures Lies(Exec(s, CancelStep(x)).state, t, c)
  {
    hide Inv, Lies, Insert, Delete, Contains;
    LiesIn(s, t, c);
    LiesFacts(s, t, c);
    if x != t {
      CancelLies(s, x, t, c);
    }
  }

  lemma ReapLies(s: State, x: Tid, t: Tid, c: Tcb)
    requires Inv(s) && Lies(s, t, c) && Contains(s.dq, x) && x != t
    ensures Lies(Reap(s, x), t, c)
  {
    hide Inv, Lies, Delete, Contains, Distinct;
    LiesIn(s, t, c);
    LiesFacts(s, t, c);
    LiesDeleted(s, Reap(s, x), t, c, x);
  }

  lemma JoinLies(s: State, tid: Option<Tid>, waited: bool, t: Tid, c: Tcb)
    requires Inv(s) && Lies(s, t, c) && JoinSafe(s, tid) && JoinTarget(s, tid) != Some(t)
    ensures Lies(AfterJoin(s, if waited then JoinEnd(s, tid) else JoinBegin(s, tid)), t, c)
  {
    hide Inv, Lies, Reap, Contains;
    var x := JoinTarget(s, tid);
    if x.Some? && s.tcbs[x.value].state == Dead {
      ReapLies(s, x.value, t, c);
    }
  }

  lemma AbortLies(s: State, x: Tid, t: Tid, c: Tcb)
    requires Inv(s) && Lies(s, t, c) && x in s.tcbs && x != t && JoinSafe(s, Some(x))
    ensures Lies(Abort(s, x).0, t, c)
  {
    hide Inv, Lies, Reap, Contains, Cancel;
    LiesIn(s, t, c);
    if s.tcbs[x].state == Dead && s.tcbs[x].joinable {
      JoinLies(s, Some(x), false, t, c);
    } else if s.tcbs[x].state != Dead {
      var c' := s.tcbs[x].(joinable := false, cancelEnabled := true, cancelAsync := true);
      TweakKeeps(s, x, c');
      LiesStill(s, s.SetTcb(x, c'), t, c);
      CancelLies(s.SetTcb(x, c'), x, t, c);
    } else {
      DeadJoinable(s, x);
    }
  }

  lemma DeadJoinable(s: State, x: Tid)
    requires Inv(s) && x in s.tcbs && s.tcbs[x].state == Dead
    ensures s.tcbs[x].joinable
  {
    hide Ordered, Placed, Covered;
    Whereabouts(s, x);
    DeadAreQueued(s);
  }

  lemma ReturnLies(s: State, l: Leave, t: Tid, c: Tcb)
    requires Inv(s) && s.current.Some? && s.current.value in s.tcbs && Lies(s, t, c)
    ensures Lies(Return(s, l), t, c)
  {
    hide Inv, Lies, Insert, Increase, Reset;
    LiesIn(s, t, c);
    LiesFacts(s, t, c);
    var s' := Return(s, l);
    if l.Exits? && s.tcbs[s.current.value].joinable {
      LiesInserted(s, s', t, c, PRIO_STD, s.current.value);
    } else {
      LiesStill(s, s', t, c);
    }
  }

  lemma EventPassLies(s: State, polled: set<nat>, late: map<nat, Status>, t: Tid, c: Tcb)
    requires Inv(s) && WaitersLive(s) && Lies(s, t, c)
    ensures Lies(EventPass(s, polled, late), t, c)
  {
    hide Inv, Lies, Polled, Keep, WakeInto, Woken, Items;
    LiesIn(s, t, c);
    LiesElsewhere(s, t, c);
    LiesStill(s, EventPass(s, polled, late), t, c);
  }

  lemma LiesElsewhere(s: State, t: Tid, c: Tcb)
    requires Inv(s) && Lies(s, t, c)
    ensures t !in Items(s.wq) && t !in Items(s.nq) && t !in Items(s.rq)
  {
    hide Ordered, Placed, Covered, Items;
    OnlyThere(s, DQ, t);
    assert !In(s, WQ, t) && !In(s, NQ, t) && !In(s, RQ, t);
  }

  lemma {:induction false} PassesLie(s: State, ps: seq<Pass>, t: Tid, c: Tcb)
    requires Inv(s) && Lies(s, t, c) && Passes(s, ps).Next?
    ensures Lies(Passes(s, ps).state, t, c)
    decreases |ps|
  {
    hide Inv, Lies, EventPass;
    if ps != [] {
      EventPassLies(s, ps[0].polled, ps[0].late, t, c);
      EventPassKeeps(s, ps[0].polled, ps[0].late);
      PassesLie(EventPass(s, ps[0].polled, ps[0].late), ps[1..], t, c);
    }
  }

  lemma DispatchLies(s: State, t: Tid, c: Tcb)
    requires Inv(s) && Lies(s, t, c) && Dispatch(s).Some?
    ensures Lies(Dispatch(s).value, t, c)
  {
    hide Inv, Lies, DrainInto, Items;
    LiesIn(s, t, c);
    LiesElsewhere(s, t, c);
    LiesStill(s, Dispatch(s).value, t, c);
  }

  lemma RoundLies(s: State, l: Leave, ps: seq<Pass>, t: Tid, c: Tcb)
    requires Inv(s) && s.current.Some? && s.current.value in s.tcbs && Lies(s, t, c) && Round(s, l, ps).Next?
    ensures Lies(Round(s, l, ps).state, t, c)
  {
    hide Inv, Lies, Return, Passes, Dispatch;
    ReturnLies(s, l, t, c);
    ReturnKeeps(s, l);
    PassesLie(Return(s, l), ps, t, c);
    PassesKeep(Return(s, l), ps);
    DispatchLies(Passes(Return(s, l), ps).state, t, c);
  }

  /** A dead thread stays in the dead queue, with its value, until a join or an abort takes it. */
  lemma StepLies(s: State, step: Step, t: Tid, c: Tcb)
    requires Inv(s) && s.current.Some? && Lies(s, t, c) && !Reaps(s, step, t) && Exec(s, step).Next?
    ensures Lies(Exec(s, step).state, t, c)
  {
    hide Inv, Lies, Spawn, Favour, Suspend, Resume, Cancel, Abort, JoinBegin, JoinEnd, JoinSafe, Round, Contains;
    match step {
      case CancelStep(x) => CancelStepLies(s, x, t, c);
      case AbortStep(x) => AbortLies(s, x, t, c);
      case JoinStep(tid, waited) => JoinLies(s, tid, waited, t, c);
      case RoundStep(l, ps) => RoundLies(s, l, ps, t, c);
      case SpawnStep(_, _) => CallLies(s, step, t, c);
      case FavourStep(_) => CallLies(s, step, t, c);
      case SuspendStep(_) => CallLies(s, step, t, c);
      case ResumeStep(_) => CallLies(s, step, t, c);
      case _ => SettingLies(s, step, t, c);
    }
  }

  /** Nobody joins or aborts t on the run. */
  ghost predicate Unreaped(s: State, steps: seq<Step>, t: Tid)
    decreases |steps|
  {
    steps != [] ==>
      !Reaps(s, steps[0], t) && (Exec(s, steps[0]).Next? ==> Unreaped(Exec(s, steps[0]).state, steps[1..], t))
  }

  /** The join has its thread's value, and the thread is gone. */
  ghost predicate Rewarded(j: Join, s: State, t: Tid, c: Tcb) {
    j.Joined? && j.value == c.joinArg && j.state.tcbs == s.tcbs - {t}
  }

  /** A join woken because its thread is dead gets the thread's value, however long it takes to run
      again, unless somebody else has taken the thread in the meantime. */
  lemma {:induction false} NamedJoinCompletes(s: State, steps: seq<Step>, t: Tid, c: Tcb)
    requires Inv(s) && s.current.Some? && Lies(s, t, c) && Unreaped(s, steps, t) && Run(s, steps).Next?
    ensures var s' := Run(s, steps).state;
            JoinSafe(s', Some(t)) && Rewarded(JoinEnd(s', Some(t)), s', t, c)
    decreases |steps|
  {
    hide Inv, Lies, Exec, Reaps;
    if steps == [] {
      DeadJoins(s, t, c);
    } else {
      StepLies(s, steps[0], t, c);
      StepKeeps(s, steps[0]);
      NamedJoinCompletes(Exec(s, steps[0]).state, steps[1..], t, c);
    }
  }

  lemma DeadJoins(s: State, t: Tid, c: Tcb)
    requires Inv(s) && Lies(s, t, c)
    ensures JoinSafe(s, Some(t)) && Rewarded(JoinEnd(s, Some(t)), s, t, c)
  {
    hide Inv;
    LiesFacts(s, t, c);
    JoinIsSafe(s, Some(t));
  }

  // ---- joining any thread

  /** A join of any thread comes away empty exactly when the dead queue is empty again. */
  lemma AnyJoinEmpty(s: State)
    requires Inv(s)
    ensures JoinSafe(s, None)
    ensures JoinEnd(s, None) == Refused(EIO) <==> s.dq == []
    ensures s.dq != [] ==> JoinEnd(s, None).Joined?
  {
    hide Ordered, Placed, Covered, Contains, Reap, Items;
    JoinIsSafe(s, None);
    if s.dq != [] {
      FirstDeadDead(s);
    }
  }

  lemma FirstDeadDead(s: State)
    requires Inv(s) && s.dq != []
    ensures s.dq[0].item in s.tcbs && s.tcbs[s.dq[0].item].state == Dead
  {
    hide Ordered, Placed, Covered;
    DeadAreQueued(s);
    assert s.dq[0].item in Items(s.dq);
  }

  /** One death wakes two joins of any thread, and the second of them gets EIO. */
  lemma SecondJoinerLoses(s: State, polled: set<nat>, late: map<nat, Status>, x: Tid, y: Tid, id: nat)
    requires Inv(s) && WaitersLive(s) && Joining(s, x, id, None) && Joining(s, y, id, None) && |s.dq| == 1
    ensures var s1 := EventPass(s, polled, late);
            && ReadyNow(s1, x) && ReadyNow(s1, y) && Inv(s1)
            && JoinSafe(s1, None) && JoinEnd(s1, None).Joined?
            && var s2 := JoinEnd(s1, None).state;
               Inv(s2) && JoinSafe(s2, None) && JoinEnd(s2, None) == Refused(EIO)
  {
    hide Inv, EventPass, Joining, Delete, Contains, JoinSafe;
    assert s.dq[0].item in Items(s.dq);
    JoinWakes(s, polled, late, x, id, None);
    JoinWakes(s, polled, late, y, id, None);
    EventPassKeeps(s, polled, late);
    var s1 := EventPass(s, polled, late);
    AnyJoinEmpty(s1);
    JoinKeeps(s1, None);
    var s2 := JoinEnd(s1, None).state;
    OneLess(s1);
    AnyJoinEmpty(s2);
  }

  lemma OneLess(s: State)
    requires Inv(s) && |s.dq| == 1 && JoinSafe(s, None) && JoinEnd(s, None).Joined?
    ensures JoinEnd(s, None).state.dq == []
  {
    hide Inv;
    DeleteFacts(s.dq, s.dq[0].item);
  }
}
