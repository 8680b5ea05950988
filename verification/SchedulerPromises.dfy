/** What each call of the library and each part of a scheduler turn promises its caller: errors,
    control blocks, and the entry of every thread in every queue. */
module SchedulerPromises {
  import opened Wrappers
  import opened PthTypes
  import opened PrioritySequence
  import EM = EventManager
  import opened Scheduler
  import opened SchedulerInvariant
  import opened SchedulerRuns
  import opened EventDelivery
  import opened EventFates

  /** Entry e is in queue n. */
  ghost predicate Holds(s: State, n: QueueName, e: Entry<Tid>) {
    e in s.Get(n)
  }

  /** The other threads have the control blocks and the entries they had. */
  ghost predicate OthersSame(s: State, s': State, t: Tid) {
    && (forall x :: x != t ==> (x in s'.tcbs <==> x in s.tcbs))
    && (forall x :: x != t && x in s.tcbs ==> s'.tcbs[x] == s.tcbs[x])
    && (forall n, e: Entry<Tid> :: e.item != t ==> (Holds(s', n, e) <==> Holds(s, n, e)))
    && s'.current == s.current && s'.favourNew == s.favourNew && s'.env == s.env
  }

  /** The only entry of thread t is in queue n, at this priority. */
  ghost predicate OnlyEntry(s: State, t: Tid, n: QueueName, prio: int) {
    forall m, e: Entry<Tid> :: e.item == t ==> (Holds(s, m, e) <==> m == n && e.prio == prio)
  }

  ghost predicate NoEntry(s: State, t: Tid) {
    forall m, e: Entry<Tid> :: e.item == t ==> !Holds(s, m, e)
  }

  lemma HoldsIn(s: State, n: QueueName, e: Entry<Tid>)
    ensures Holds(s, n, e) ==> In(s, n, e.item)
  {
    var q := s.Get(n);
    if e in q {
      var i :| 0 <= i < |q| && q[i] == e;
      assert q[i].item in Items(q);
    }
  }

  lemma NoEntryOutside(s: State, t: Tid)
    requires forall n :: !In(s, n, t)
    ensures NoEntry(s, t)
  {
    hide In, Holds;
    forall m, e: Entry<Tid> | e.item == t
      ensures !Holds(s, m, e)
    {
      HoldsIn(s, m, e);
    }
  }

  /** A thread in no queue enters one. */
  lemma EnterEntries(s: State, n: QueueName, prio: int, t: Tid, c: Tcb)
    requires NoEntry(s, t)
    ensures var s' := s.SetTcb(t, c).Put(n, Insert(s.Get(n), prio, t));
            OthersSame(s, s', t) && OnlyEntry(s', t, n, prio)
  {
    hide Insert;
    InsertEntries(s.Get(n), prio, t);
    var s' := s.SetTcb(t, c).Put(n, Insert(s.Get(n), prio, t));
    forall m, e
      ensures Holds(s', m, e) <==> Holds(s, m, e) || (m == n && e == Entry(t, prio))
    {
      if m == n {
        assert s'.Get(n) == Insert(s.Get(n), prio, t);
      } else {
        assert s'.Get(m) == s.Get(m);
      }
    }
  }

  /** A thread leaves its queue. */
  lemma LeaveEntries(s: State, n: QueueName, t: Tid)
    requires Inv(s) && In(s, n, t)
    ensures Contains(s.Get(n), t)
    ensures var s' := s.Put(n, Delete(s.Get(n), t));
            OthersSame(s, s', t) && NoEntry(s', t)
  {
    hide Inv, In, Delete, Contains, Distinct, Holds, Placed, Covered;
    InContains(s, n, t);
    Alone(s, n, t);
    DeleteEntries(s.Get(n), t);
    var s' := s.Put(n, Delete(s.Get(n), t));
    forall m, e
      ensures Holds(s', m, e) <==> Holds(s, m, e) && e.item != t
    {
      HoldsIn(s, m, e);
      RemovedHolds(s, n, t, m, e);
    }
  }

  lemma Alone(s: State, n: QueueName, t: Tid)
    requires Inv(s) && In(s, n, t)
    ensures Distinct(s.Get(n)) && forall m :: In(s, m, t) <==> m == n
  {
    hide In, Placed, Covered, Distinct;
    QueueDistinct(s, n);
    OnlyThere(s, n, t);
  }

  lemma RemovedHolds(s: State, n: QueueName, t: Tid, m: QueueName, e: Entry<Tid>)
    requires Contains(s.Get(n), t)
    ensures var s' := s.Put(n, Delete(s.Get(n), t));
            Holds(s', m, e) <==> if m == n then e in Delete(s.Get(n), t) else Holds(s, m, e)
    ensures Holds(s, n, e) <==> e in s.Get(n)
  {
    hide Delete, Contains;
    var s' := s.Put(n, Delete(s.Get(n), t));
    if m == n {
      assert s'.Get(n) == Delete(s.Get(n), t);
    } else {
      assert s'.Get(m) == s.Get(m);
    }
  }

  /** A thread moves to another queue, and its control block becomes c. */
  lemma MoveEntries(s: State, from: QueueName, to: QueueName, prio: int, t: Tid, c: Tcb)
    requires Inv(s) && In(s, from, t)
    ensures Contains(s.SetTcb(t, c).Get(from), t)
    ensures var s' := Move(s.SetTcb(t, c), from, to, prio, t);
            && OthersSame(s, s', t) && OnlyEntry(s', t, to, prio)
            && t in s'.tcbs && s'.tcbs[t] == c
  {
    hide Inv, In, Delete, Contains, Insert, Holds;
    LeaveEntries(s, from, t);
    var s1 := s.Put(from, Delete(s.Get(from), t));
    EnterEntries(s1, to, prio, t, c);
    assert s.SetTcb(t, c).Get(from) == s.Get(from);
    assert Move(s.SetTcb(t, c), from, to, prio, t) == s1.SetTcb(t, c).Put(to, Insert(s1.Get(to), prio, t)) by {
      MoveIs(s, from, to, prio, t, c);
    }
  }

  lemma MoveIs(s: State, from: QueueName, to: QueueName, prio: int, t: Tid, c: Tcb)
    requires Contains(s.Get(from), t) && Contains(s.SetTcb(t, c).Get(from), t)
    ensures var s1 := s.Put(from, Delete(s.Get(from), t));
            Move(s.SetTcb(t, c), from, to, prio, t) == s1.SetTcb(t, c).Put(to, Insert(s1.Get(to), prio, t))
  {
    hide Delete, Contains, Insert;
    assert s.SetTcb(t, c).Get(from) == s.Get(from);
  }

  // ---- calls of the running thread

  /** A step of a run is the call of its name, made by the running thread on a thread that exists. */
  lemma StepsAreCalls(s: State, t: Tid, c: Tcb, tid: Option<Tid>, waited: bool)
    requires Inv(s) && s.current.Some?
    ensures t !in s.tcbs ==> Exec(s, SpawnStep(t, c)) == Next(Spawn(s, t, c))
    ensures t in s.tcbs ==>
              && Exec(s, FavourStep(t)) == Next(Favour(s, t).0) && Exec(s, SuspendStep(t)) == Next(Suspend(s, t).0)
              && (Contains(s.sq, t) ==> QueueOf(s.tcbs[t].state).Some?)
              && Exec(s, ResumeStep(t)) == Next(Resume(s, t).0)
              && Exec(s, CancelStep(t)) == Next(Cancel(s, t).0)
              && JoinSafe(s, Some(t)) && Exec(s, AbortStep(t)) == Next(Abort(s, t).0)
    ensures (tid.Some? ==> tid.value in s.tcbs) ==>
              && JoinSafe(s, tid)
              && var j := if waited then JoinEnd(s, tid) else JoinBegin(s, tid);
                 Exec(s, JoinStep(tid, waited)) == Next(AfterJoin(s, j))
    ensures s.current.value in s.tcbs && Exec(s, CancelPointStep) == Next(CancelPoint(s).0)
  {
    hide Ordered, Placed, Covered, Contains, Spawn, Favour, Suspend, Resume, Cancel, Abort, JoinEnd, JoinBegin;
    if t in s.tcbs {
      JoinIsSafe(s, Some(t));
      if Contains(s.sq, t) {
        ResumeDefined(s, t);
      }
    }
    if tid.Some? ==> tid.value in s.tcbs {
      JoinIsSafe(s, tid);
    }
  }

  /** pth_spawn: the thread has the attributes asked for, is new, and has neither a request nor a
      value nor events yet. */
  lemma SpawnMeaning(s: State, t: Tid, c: Tcb)
    requires Inv(s) && t !in s.tcbs
    ensures var s' := Spawn(s, t, c);
            && OthersSame(s, s', t) && OnlyEntry(s', t, NQ, c.prio)
            && t in s'.tcbs && s'.tcbs[t] == Tcb(c.prio, New, c.joinable, false, c.cancelEnabled, c.cancelAsync, 0, [])
  {
    hide Ordered, Covered, In, Insert, Holds;
    Strangers(s, t);
    NoEntryOutside(s, t);
    EnterEntries(s, NQ, c.prio, t, c.(state := New, cancelReq := false, joinArg := 0, ring := []));
  }

  /** A directed yield works exactly on new and ready threads that are in their queue.  The thread is
      then first of its queue, and the others follow as they stood; otherwise nothing happens. */
  lemma FavourMeaning(s: State, to: Tid)
    requires Inv(s) && to in s.tcbs
    ensures var (s', e) := Favour(s, to);
            if In(s, NQ, to) || In(s, RQ, to) then
              var n := if In(s, NQ, to) then NQ else RQ;
              && e == None && s' == s.Put(n, s'.Get(n)) && Contains(s.Get(n), to)
              && s'.Get(n) != [] && s'.Get(n)[0].item == to && s'.Get(n)[1..] == Delete(s.Get(n), to)
            else e == Some(EINVAL) && s' == s
  {
    hide Ordered, Placed, Covered, In, Contains, Favorite, Delete;
    Whereabouts(s, to);
    if In(s, NQ, to) || In(s, RQ, to) {
      var n := if In(s, NQ, to) then NQ else RQ;
      NotCurrent(s, n, to);
      QueueDistinct(s, n);
      InFront(s.Get(n), to);
      assert Favour(s, to).0.Get(n) == Favorite(s.Get(n), to);
    }
  }

  lemma InFront(q: Queue<Tid>, t: Tid)
    requires Contains(q, t) && Sorted(q)
    ensures Favorite(q, t) != [] && Favorite(q, t)[0].item == t && Favorite(q, t)[1..] == Delete(q, t)
  {
    if |q| > 1 {
      hide Sorted, Contains, Delete, Favorite;
      FavoriteInFront(q, t);
    }
  }

  /** pth_suspend: EPERM for a running or dead thread, ESRCH for one that is suspended already;
      otherwise the thread is suspended, at the standard priority and with its control block as it was. */
  lemma SuspendMeaning(s: State, t: Tid)
    requires Inv(s) && t in s.tcbs
    ensures var (s', e) := Suspend(s, t);
            if s.current == Some(t) || s.tcbs[t].state == Dead then e == Some(EPERM) && s' == s
            else if In(s, SQ, t) then e == Some(ESRCH) && s' == s
            else e == None && OthersSame(s, s', t) && OnlyEntry(s', t, SQ, PRIO_STD) && s'.tcbs == s.tcbs
  {
    hide Ordered, Placed, Covered, In, Contains, Move, Holds;
    Whereabouts(s, t);
    var q := QueueOf(s.tcbs[t].state);
    if s.current != Some(t) && s.tcbs[t].state != Dead && !In(s, SQ, t) {
      MoveEntries(s, q.value, SQ, PRIO_STD, t, s.tcbs[t]);
      SameTcb(s, t);
      MoveTcbs(s, q.value, SQ, PRIO_STD, t);
    }
  }

  /** pth_resume: EPERM for a thread that is not suspended; otherwise it is back in the queue of its
      state, at the standard priority. */
  lemma ResumeMeaning(s: State, t: Tid)
    requires Inv(s) && t in s.tcbs && (Contains(s.sq, t) ==> QueueOf(s.tcbs[t].state).Some?)
    ensures var (s', e) := Resume(s, t);
            if !In(s, SQ, t) then e == Some(EPERM) && s' == s
            else
              && e == None && OthersSame(s, s', t) && s'.tcbs == s.tcbs && s.tcbs[t].state != Dead
              && OnlyEntry(s', t, match s.tcbs[t].state case New => NQ case Ready => RQ case _ => WQ, PRIO_STD)
  {
    hide Ordered, Placed, Covered, In, Contains, Move, Holds;
    Whereabouts(s, t);
    if In(s, SQ, t) {
      NotCurrent(s, SQ, t);
      var q := QueueOf(s.tcbs[t].state).value;
      MoveEntries(s, SQ, q, PRIO_STD, t, s.tcbs[t]);
      SameTcb(s, t);
      MoveTcbs(s, SQ, q, PRIO_STD, t);
    }
  }

  /** Thread t may be cancelled at any time. */
  predicate Asynchronous(c: Tcb) {
    c.cancelEnabled && c.cancelAsync
  }

  /** A joinable thread that was cancelled: dead, with the value CANCELED, in the dead queue. */
  ghost predicate Canceled(s: State, t: Tid, c: Tcb) {
    && t in s.tcbs && s.tcbs[t] == c.(cancelReq := true, state := Dead, joinArg := CANCELED)
    && OnlyEntry(s, t, DQ, PRIO_STD)
  }

  /** pth_cancel: EINVAL for the caller, EPERM for a dead thread.  A thread that cannot be cancelled at
      any time only has its request set, and so does a suspended one, with ESRCH.  Any other ends at
      once: joinable ones are dead with the value CANCELED, the others are gone. */
  lemma CancelMeaning(s: State, t: Tid)
    requires Inv(s) && t in s.tcbs
    ensures var (s', e), c := Cancel(s, t), s.tcbs[t];
            if s.current == Some(t) then e == Some(EINVAL) && s' == s
            else if c.state == Dead then e == Some(EPERM) && s' == s
            else
              && OthersSame(s, s', t)
              && (if !Asynchronous(c) || In(s, SQ, t)
                  then e == (if Asynchronous(c) then Some(ESRCH) else None) && s' == s.SetTcb(t, c.(cancelReq := true))
                  else e == None && if c.joinable then Canceled(s', t, c) else t !in s'.tcbs && NoEntry(s', t))
  {
    hide Ordered, Placed, Covered, In, Contains, Move, Delete, Holds;
    Whereabouts(s, t);
    var c := s.tcbs[t];
    if s.current != Some(t) && c.state != Dead {
      Retouched(s, t, c.(cancelReq := true));
      if Asynchronous(c) && !In(s, SQ, t) {
        Cancelling(s, t);
      }
    }
  }

  lemma Retouched(s: State, t: Tid, c: Tcb)
    requires t in s.tcbs
    ensures OthersSame(s, s.SetTcb(t, c), t)
  {
    hide Holds;
    SameHolds(s, s.SetTcb(t, c));
  }

  lemma Cancelling(s: State, t: Tid)
    requires Inv(s) && t in s.tcbs && s.current != Some(t) && s.tcbs[t].state != Dead
    requires Asynchronous(s.tcbs[t]) && !In(s, SQ, t)
    ensures var (s', e), c := Cancel(s, t), s.tcbs[t];
            && e == None && OthersSame(s, s', t)
            && if c.joinable then Canceled(s', t, c) else t !in s'.tcbs && NoEntry(s', t)
  {
    hide Ordered, Placed, Covered, In, Contains, Move, Delete, Holds;
    Whereabouts(s, t);
    var c, q := s.tcbs[t], QueueOf(s.tcbs[t].state).value;
    var s1 := s.SetTcb(t, c.(cancelReq := true));
    assert s1.Get(q) == s.Get(q);
    if c.joinable {
      var c2 := c.(cancelReq := true, joinArg := CANCELED, state := Dead);
      MoveEntries(s, q, DQ, PRIO_STD, t, c2);
      SetTwice(s, t, c.(cancelReq := true), c2);
    } else {
      LeaveEntries(s, q, t);
      Dropped(s, s1, q, t);
    }
  }

  lemma SetTwice(s: State, t: Tid, c1: Tcb, c2: Tcb)
    ensures s.SetTcb(t, c1).SetTcb(t, c2) == s.SetTcb(t, c2)
  {
    assert s.tcbs[t := c1][t := c2] == s.tcbs[t := c2];
  }

  lemma Dropped(s: State, s1: State, q: QueueName, t: Tid)
    requires Contains(s.Get(q), t) && t in s.tcbs && t in s1.tcbs && s1 == s.SetTcb(t, s1.tcbs[t])
    requires var s2 := s.Put(q, Delete(s.Get(q), t)); OthersSame(s, s2, t) && NoEntry(s2, t)
    ensures var s2 := s1.Put(q, Delete(s.Get(q), t));
            var s3 := s2.(tcbs := s2.tcbs - {t});
            OthersSame(s, s3, t) && NoEntry(s3, t)
  {
    hide Delete, Contains, Holds, OthersSame, NoEntry;
    var s2, s2' := s.Put(q, Delete(s.Get(q), t)), s1.Put(q, Delete(s.Get(q), t));
    PutTcbs(s, q, Delete(s.Get(q), t), s1.tcbs);
    assert s1.tcbs - {t} == s.tcbs - {t};
    WithoutBlock(s, s2, t);
  }

  lemma PutTcbs(s: State, n: QueueName, q: Queue<Tid>, tcbs: map<Tid, Tcb>)
    ensures s.(tcbs := tcbs).Put(n, q) == s.Put(n, q).(tcbs := tcbs) && s.Put(n, q).tcbs == s.tcbs
  {
  }

  lemma WithoutBlock(s: State, s': State, t: Tid)
    requires OthersSame(s, s', t) && NoEntry(s', t)
    ensures var s3 := s'.(tcbs := s'.tcbs - {t}); OthersSame(s, s3, t) && NoEntry(s3, t)
  {
    hide Holds;
    SameHolds(s', s'.(tcbs := s'.tcbs - {t}));
  }

  lemma SameHolds(s: State, s': State)
    requires forall n :: s'.Get(n) == s.Get(n)
    ensures forall n, e :: Holds(s', n, e) <==> Holds(s, n, e)
  {
  }

  /** pth_cancel_point: the thread has to exit if and only if a request is there and cancellation is
      enabled; then, and only then, the request is taken back. */
  lemma CancelPointMeaning(s: State)
    requires s.current.Some? && s.current.value in s.tcbs
    ensures var (s', exit), t, c := CancelPoint(s), s.current.value, s.tcbs[s.current.value];
            && (exit <==> c.cancelReq && c.cancelEnabled)
            && t in s'.tcbs && s'.tcbs[t] == c.(cancelReq := c.cancelReq && !c.cancelEnabled)
            && OthersSame(s, s', t) && forall n :: s'.Get(n) == s.Get(n)
  {
    var t := s.current.value;
    Retouched(s, t, s.tcbs[t].(cancelReq := false));
  }

  /** pth_cancel_state decides the next cancellation point of the thread, and whether a cancel by
      others takes effect at once; it takes no request back. */
  lemma CancelStateMeaning(s: State, enabled: bool, async: bool)
    requires Inv(s) && s.current.Some?
    ensures var o, t := Exec(s, CancelStateStep(enabled, async)), s.current.value;
            && o.Next? && t in s.tcbs && t in o.state.tcbs && o.state.current == Some(t)
            && (CancelPoint(o.state).1 <==> s.tcbs[t].cancelReq && enabled)
            && (Asynchronous(o.state.tcbs[t]) <==> enabled && async)
            && OthersSame(s, o.state, t) && forall n :: o.state.Get(n) == s.Get(n)
  {
    hide Ordered, Placed, Covered;
    var t := s.current.value;
    Retouched(s, t, s.tcbs[t].(cancelEnabled := enabled, cancelAsync := async));
  }

  /** pth_ctrl with FAVOURNEW decides where the next new threads come in; what threads do to conditions
      and semaphores is there for the next pass; neither touches a thread. */
  lemma SettingsMeaning(s: State, favour: bool, env: EM.Env)
    requires Inv(s) && s.current.Some?
    ensures var o := Exec(s, FavourNewStep(favour));
            && o.Next? && o.state == s.(favourNew := o.state.favourNew)
            && Drain(o.state).rq ==
                 if favour then InFrontOf(s.nq, if s.rq == [] then PRIO_MAX - 1 else s.rq[0].prio) + s.rq
                 else DrainInto(s.nq, s.rq, false)
    ensures var o := Exec(s, SyncStep(env));
            o.Next? && o.state == s.(env := env)
  {
    hide Placed, Covered, DrainInto;
    QueueDistinct(s, RQ);
    assert s.Get(RQ) == s.rq;
    DrainFavoured(s.nq, s.rq);
  }

  /** pth_join before its wait: EDEADLK for oneself or when nobody else is left, EINVAL for a detached
      thread; it waits if and only if there is no such refusal and no dead thread to take. */
  lemma JoinMeaning(s: State, tid: Option<Tid>)
    requires Inv(s) && s.current.Some? && JoinSafe(s, tid)
    ensures var j := JoinBegin(s, tid);
            && (j == Refused(EDEADLK) <==> tid == s.current || |s.tcbs| == 1)
            && (j == Refused(EINVAL) <==> tid.Some? && tid != s.current && !s.tcbs[tid.value].joinable)
            && (j.Refused? ==> j.error == EDEADLK || j.error == EINVAL)
            && (j == MustWait <==> !j.Refused? && if tid.Some? then s.tcbs[tid.value].state != Dead else s.dq == [])
            && (j.Joined? ==> j == JoinEnd(s, tid))
  {
    hide Ordered, Placed, Covered, Contains, Reap;
    ThreadCountExact(s);
    DeadAreQueued(s);
    if tid.Some? && tid != s.current {
      assert {tid.value, s.current.value} <= s.tcbs.Keys;
      TwoKeys(s.tcbs.Keys, tid.value, s.current.value);
    }
    assert s.dq != [] ==> s.dq[0].item in Items(s.dq);
  }

  lemma TwoKeys(keys: set<Tid>, x: Tid, y: Tid)
    requires x in keys && y in keys && x != y
    ensures |keys| >= 2
  {
    assert |keys - {x}| == |keys| - 1 && y in keys - {x};
  }

  /** Freeing a dead thread touches nobody else. */
  lemma ReapMeaning(s: State, t: Tid)
    requires Inv(s) && In(s, DQ, t)
    ensures Contains(s.dq, t) && OthersSame(s, Reap(s, t), t) && t !in Reap(s, t).tcbs && NoEntry(Reap(s, t), t)
  {
    hide Inv, In, Contains, Delete, Holds;
    LeaveEntries(s, DQ, t);
    assert s.Get(DQ) == s.dq;
    var s1 := s.Put(DQ, Delete(s.dq, t));
    SameHolds(s1, s1.(tcbs := s1.tcbs - {t}));
  }

  /** A join that succeeds takes one dead thread, and touches nobody else. */
  lemma JoinTakes(s: State, tid: Option<Tid>)
    requires Inv(s) && JoinSafe(s, tid) && JoinEnd(s, tid).Joined?
    ensures var j, t := JoinEnd(s, tid), JoinTarget(s, tid);
            && t.Some? && (tid.Some? ==> t == tid) && (tid == None ==> s.dq != [] && t.value == s.dq[0].item)
            && In(s, DQ, t.value) && t.value in s.tcbs
            && j.value == s.tcbs[t.value].joinArg
            && OthersSame(s, j.state, t.value) && t.value !in j.state.tcbs && NoEntry(j.state, t.value)
  {
    hide Inv, Contains, OthersSame, NoEntry, Reap;
    var t := JoinTarget(s, tid).value;
    InContains(s, DQ, t);
    assert s.Get(DQ) == s.dq;
    ReapMeaning(s, t);
  }

  /** pth_abort: EINVAL for the caller, and otherwise nobody but the thread is touched. */
  lemma AbortMeaning(s: State, t: Tid)
    requires Inv(s) && t in s.tcbs && JoinSafe(s, Some(t))
    ensures if s.current == Some(t) then Abort(s, t) == (s, Some(EINVAL)) else OthersSame(s, Abort(s, t).0, t)
  {
    hide Ordered, Placed, Covered, In, Contains, Cancel, Reap, Holds;
    Whereabouts(s, t);
    if s.current != Some(t) {
      if s.tcbs[t].state == Dead {
        NotCurrent(s, DQ, t);
        ReapMeaning(s, t);
      } else {
        var c := s.tcbs[t].(joinable := false, cancelEnabled := true, cancelAsync := true);
        TweakKeeps(s, t, c);
        Retouched(s, t, c);
        CancelMeaning(s.SetTcb(t, c), t);
        CancelSpares(s.SetTcb(t, c), t);
      }
    }
  }

  lemma CancelSpares(s: State, t: Tid)
    requires Inv(s) && t in s.tcbs && s.current != Some(t) && s.tcbs[t].state != Dead
    ensures OthersSame(s, Cancel(s, t).0, t)
  {
    hide Inv, Cancel, OthersSame;
    CancelMeaning(s, t);
  }

  // ---- the scheduler loop

  /** The others have the control blocks they had, and the entries, the ready ones one higher. */
  ghost predicate OthersAged(s: State, s': State, t: Tid) {
    && (forall x :: x != t ==> (x in s'.tcbs <==> x in s.tcbs))
    && (forall x :: x != t && x in s.tcbs ==> s'.tcbs[x] == s.tcbs[x])
    && (forall n, e: Entry<Tid> :: e.item != t ==>
          (Holds(s', n, e) <==> Holds(s, n, if n == RQ then Entry(e.item, e.prio - 1) else e)))
    && s'.current == None && s'.favourNew == s.favourNew && s'.env == s.env
  }

  lemma Aged(s: State)
    ensures var s' := s.Put(RQ, Increase(s.rq));
            forall n, e :: Holds(s', n, e) <==> Holds(s, n, if n == RQ then Entry(e.item, e.prio - 1) else e)
  {
    hide Increase;
    var s' := s.Put(RQ, Increase(s.rq));
    forall n, e
      ensures Holds(s', n, e) <==> Holds(s, n, if n == RQ then Entry(e.item, e.prio - 1) else e)
    {
      if n == RQ {
        AgedEntry(s.rq, e);
      } else {
        assert s'.Get(n) == s.Get(n);
      }
    }
  }

  lemma AgedEntry(q: Queue<Tid>, e: Entry<Tid>)
    ensures e in Increase(q) <==> Entry(e.item, e.prio - 1) in q
  {
    if e in Increase(q) {
      var i :| 0 <= i < |q| && Increase(q)[i] == e;
      assert q[i] == Entry(e.item, e.prio - 1);
    }
    if Entry(e.item, e.prio - 1) in q {
      var i :| 0 <= i < |q| && q[i] == Entry(e.item, e.prio - 1);
      assert Increase(q)[i] == e;
    }
  }

  /** A thread that has left the processor is in no queue yet. */
  lemma OffStage(s: State)
    requires Inv(s) && s.current.Some?
    ensures var s0 := s.(current := None);
            NoEntry(s0, s.current.value) && forall n, e :: Holds(s0, n, e) <==> Holds(s, n, e)
  {
    hide Ordered, Placed, Covered, In, Holds;
    Outside(s);
    NoEntryOutside(s.(current := None), s.current.value);
    SameHolds(s, s.(current := None));
  }

  /** The thread entered queue n, which is not the ready queue, and the ready queue aged. */
  lemma EnterAged(s: State, n: QueueName, prio: int, c: Tcb)
    requires Inv(s) && s.current.Some? && n != RQ
    ensures var t := s.current.value;
            var s' := s.(current := None).SetTcb(t, c).Put(n, Insert(s.Get(n), prio, t)).Put(RQ, Increase(s.rq));
            OthersAged(s, s', t) && OnlyEntry(s', t, n, prio) && t in s'.tcbs && s'.tcbs[t] == c
  {
    hide Inv, Holds, Insert, Increase;
    OffStage(s);
    var s0, t := s.(current := None), s.current.value;
    assert s0.Get(n) == s.Get(n);
    EnterEntries(s0, n, prio, t, c);
    var s1 := s0.SetTcb(t, c).Put(n, Insert(s.Get(n), prio, t));
    Aged(s1);
  }

  lemma LeaveAged(s: State)
    requires Inv(s) && s.current.Some?
    ensures var t := s.current.value;
            var s' := s.(current := None, tcbs := s.tcbs - {t}).Put(RQ, Increase(s.rq));
            OthersAged(s, s', t) && NoEntry(s', t) && t !in s'.tcbs
  {
    hide Inv, Holds, Increase;
    OffStage(s);
    var s1 := s.(current := None, tcbs := s.tcbs - {s.current.value});
    SameHolds(s, s1);
    Aged(s1);
  }

  lemma YieldAged(s: State)
    requires Inv(s) && s.current.Some? && s.current.value in s.tcbs
    ensures var t, s' := s.current.value, Return(s, Yields);
            OthersAged(s, s', t) && OnlyEntry(s', t, RQ, s.tcbs[t].prio) && s'.tcbs == s.tcbs
  {
    hide Inv, Holds, Insert, Increase;
    OffStage(s);
    var t, c := s.current.value, s.tcbs[s.current.value];
    var s0 := s.(current := None);
    Aged(s0);
    var s1 := s0.Put(RQ, Increase(s.rq));
    EnterEntries(s1, RQ, c.prio, t, c);
    SameTcb(s1, t);
  }

  /** How a thread gives up control.  One that exits is dead with its value in the dead queue if it is
      joinable, and gone if not; one that waits is in the waiting queue with all its events pending;
      one that yields is ready at its base priority; all other ready threads age by one. */
  lemma ReturnMeaning(s: State, l: Leave)
    requires Inv(s) && s.current.Some? && s.current.value in s.tcbs
    ensures var s', t, c := Return(s, l), s.current.value, s.tcbs[s.current.value];
            && OthersAged(s, s', t)
            && match l
               case Exits(v) =>
                 if c.joinable
                 then t in s'.tcbs && s'.tcbs[t] == c.(state := Dead, joinArg := v) && OnlyEntry(s', t, DQ, PRIO_STD)
                 else t !in s'.tcbs && NoEntry(s', t)
               case Waits(ring) =>
                 && t in s'.tcbs && s'.tcbs[t] == c.(state := Waiting, ring := s'.tcbs[t].ring)
                 && |s'.tcbs[t].ring| == |ring| && OnlyEntry(s', t, WQ, c.prio)
                 && forall i :: 0 <= i < |ring| ==> s'.tcbs[t].ring[i] == EM.Event(ring[i].id, ring[i].kind, Pending)
               case Yields => s'.tcbs == s.tcbs && OnlyEntry(s', t, RQ, c.prio)
  {
    hide Inv, Holds, Insert, Increase, OthersAged, OnlyEntry, NoEntry;
    var t, c := s.current.value, s.tcbs[s.current.value];
    match l {
      case Exits(v) =>
        if c.joinable {
          EnterAged(s, DQ, PRIO_STD, c.(state := Dead, joinArg := v));
        } else {
          LeaveAged(s);
        }
      case Waits(ring) => EnterAged(s, WQ, c.prio, c.(state := Waiting, ring := Reset(ring)));
      case Yields => YieldAged(s);
    }
  }

  /** A pass of the event manager changes of the waiting threads the events, of the woken ones the state
      and the queue, which they enter one above their base priority, and nothing else. */
  lemma PassMeaning(s: State, polled: set<nat>, late: map<nat, Status>)
    requires Inv(s) && WaitersLive(s)
    ensures var s' := EventPass(s, polled, late);
            && s'.tcbs.Keys == s.tcbs.Keys
            && (forall x :: x in s.tcbs && !In(s, WQ, x) ==> s'.tcbs[x] == s.tcbs[x])
            && (forall x :: x in s.tcbs ==>
                  s'.tcbs[x] == s.tcbs[x].(ring := s'.tcbs[x].ring, state := s'.tcbs[x].state))
            && (forall x :: In(s, WQ, x) && In(s', RQ, x) ==> Holds(s', RQ, Entry(x, s.tcbs[x].prio + 1)))
            && (forall e :: Holds(s, RQ, e) ==> Holds(s', RQ, e))
            && (forall e :: Holds(s, WQ, e) && !In(s', RQ, e.item) ==> Holds(s', WQ, e))
            && (forall n :: n != RQ && n != WQ ==> s'.Get(n) == s.Get(n))
            && s'.current == s.current && s'.favourNew == s.favourNew
  {
    hide Ordered, Covered, Placed, Sorted, Distinct, Items, Keep, WakeInto, Woken, Polled, RingOf;
    var woken := Woken(s, Polled(s, polled, late).1);
    var s' := EventPass(s, polled, late);
    PassEntries(s, woken);
    PassItems(s, polled, late);
    QueuesDisjoint(s, WQ, RQ);
    assert s.Get(WQ) == s.wq && s.Get(RQ) == s.rq && s'.Get(WQ) == s'.wq && s'.Get(RQ) == s'.rq;
    assert forall n :: n != RQ && n != WQ ==> s'.Get(n) == s.Get(n);
    forall e | Holds(s, WQ, e) && !In(s', RQ, e.item)
      ensures Holds(s', WQ, e)
    {
      HoldsIn(s, WQ, e);
    }
  }

  lemma PassEntries(s: State, woken: set<Tid>)
    requires Inv(s) && WaitersLive(s)
    ensures var rq, wq := WakeInto(s.wq, s.rq, woken, Base(s)), Keep(s.wq, woken);
            && (forall x :: x in Items(s.wq) && x in woken ==> x in s.tcbs && Entry(x, s.tcbs[x].prio + 1) in rq)
            && (forall e :: e in s.rq ==> e in rq)
            && (forall e :: e in s.wq && e.item !in woken ==> e in wq)
  {
    hide Covered, Placed, Sorted, Distinct, Keep, WakeInto;
    QueuesDisjoint(s, WQ, RQ);
    assert s.Get(WQ) == s.wq && s.Get(RQ) == s.rq;
    QueueDistinct(s, WQ);
    QueueDistinct(s, RQ);
    WakeIntoFacts(s.wq, s.rq, woken, Base(s));
    KeepFacts(s.wq, woken);
    forall x | x in Items(s.wq) && x in woken
      ensures x in s.tcbs && Entry(x, s.tcbs[x].prio + 1) in WakeInto(s.wq, s.rq, woken, Base(s))
    {
      var i :| 0 <= i < |s.wq| && s.wq[i].item == x;
    }
  }

  /** The threads of a queue in their order, at priorities that fall to just above best. */
  function InFrontOf(nq: Queue<Tid>, best: int): (r: Queue<Tid>)
    ensures |r| == |nq| && forall i :: 0 <= i < |nq| ==> r[i] == Entry(nq[i].item, best + |nq| - i)
  {
    seq(|nq|, i requires 0 <= i < |nq| => Entry(nq[i].item, best + |nq| - i))
  }

  /** The threads of a queue in reverse order, at the standard priority. */
  function Backwards(nq: Queue<Tid>): (r: Queue<Tid>)
    ensures |r| == |nq| && forall i :: 0 <= i < |nq| ==> r[i] == Entry(nq[|nq| - 1 - i].item, PRIO_STD)
  {
    seq(|nq|, i requires 0 <= i < |nq| => Entry(nq[|nq| - 1 - i].item, PRIO_STD))
  }

  /** Favoured new threads come before all ready ones, in the order of their queue. */
  lemma {:induction false} DrainFavoured(nq: Queue<Tid>, rq: Queue<Tid>)
    requires Sorted(rq)
    ensures DrainInto(nq, rq, true) == InFrontOf(nq, if rq == [] then PRIO_MAX - 1 else rq[0].prio) + rq
    decreases |nq|
  {
    hide Insert;
    if nq != [] {
      var n, t, best := |nq| - 1, nq[|nq| - 1].item, FavoritePrio(rq) - 1;
      InsertInFront(rq, t);
      var rq1 := [Entry(t, best + 1)] + rq;
      DrainFavoured(nq[..n], rq1);
      assert InFrontOf(nq, best) == InFrontOf(nq[..n], best + 1) + [Entry(t, best + 1)];
      assert InFrontOf(nq, best) + rq == InFrontOf(nq[..n], best + 1) + rq1;
    }
  }

  /** New threads that are not favoured come behind all of at least the standard priority, the last of
      their queue first. */
  lemma {:induction false} DrainPlain(nq: Queue<Tid>, rq: Queue<Tid>, k: nat)
    requires Sorted(rq) && k <= |rq|
    requires forall i :: 0 <= i < k ==> rq[i].prio >= PRIO_STD
    requires forall i :: k <= i < |rq| ==> rq[i].prio < PRIO_STD
    ensures DrainInto(nq, rq, false) == rq[..k] + Backwards(nq) + rq[k..]
    decreases |nq|
  {
    hide Insert;
    if nq != [] {
      var n, t := |nq| - 1, nq[|nq| - 1].item;
      InsertStable(rq, PRIO_STD, t, k);
      InsertSorted(rq, PRIO_STD, t);
      var rq1 := Insert(rq, PRIO_STD, t);
      DrainPlain(nq[..n], rq1, k + 1);
      assert rq1[..k + 1] == rq[..k] + [Entry(t, PRIO_STD)] && rq1[k + 1..] == rq[k..];
      assert Backwards(nq) == [Entry(t, PRIO_STD)] + Backwards(nq[..n]);
      Regroup(rq[..k], [Entry(t, PRIO_STD)], Backwards(nq[..n]), rq[k..]);
    }
  }

  lemma Regroup(a: Queue<Tid>, b: Queue<Tid>, c: Queue<Tid>, d: Queue<Tid>)
    ensures (a + b) + c + d == a + (b + c) + d
  {
  }

  /** The end of a turn: the new threads are ready, one with the highest priority of all ready threads
      runs, and nothing else has changed. */
  lemma DispatchMeaning(s: State)
    requires Inv(s) && s.current == None && Dispatch(s).Some?
    ensures var s', r := Dispatch(s).value, DrainInto(s.nq, s.rq, s.favourNew);
            && r != [] && s'.current == Some(r[0].item) && s'.rq == r[1..]
            && (forall i :: 0 <= i < |r| ==> r[i].prio <= r[0].prio)
            && Items(r) == Items(s.rq) + Items(s.nq)
            && s'.nq == [] && s'.wq == s.wq && s'.sq == s.sq && s'.dq == s.dq
            && s'.favourNew == s.favourNew && s'.env == s.env
            && s'.tcbs.Keys == s.tcbs.Keys
            && forall x :: x in s.tcbs ==> s'.tcbs[x] == if In(s, NQ, x) then s.tcbs[x].(state := Ready) else s.tcbs[x]
  {
    hide Placed, Covered, Items, Distinct, DrainInto;
    QueueDistinct(s, NQ);
    QueueDistinct(s, RQ);
    QueuesDisjoint(s, NQ, RQ);
    DrainFacts(s.nq, s.rq, s.favourNew);
    assert s.Get(NQ) == s.nq;
  }
}
