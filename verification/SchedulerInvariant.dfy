/** Where every thread is: in each reachable state of the scheduler a live thread is
    running or in exactly one queue, and that queue agrees with its state field. */
module SchedulerInvariant {
  import opened Wrappers
  import opened PthTypes
  import opened PrioritySequence
  import EM = EventManager
  import opened Scheduler

  ghost predicate Fits(n: QueueName, c: Tcb) {
    && (c.state == Waiting ==> !EM.AnyOccurred(c.ring))
    && match n
       case NQ => c.state == New
       case RQ => c.state == Ready
       case WQ => c.state == Waiting
       case SQ => c.state != Dead
       case DQ => c.state == Dead && c.joinable
  }

  ghost predicate In(s: State, n: QueueName, t: Tid) {
    t in Items(s.Get(n))
  }

  ghost predicate Ordered(s: State) {
    forall n :: Sorted(s.Get(n)) && Distinct(s.Get(n))
  }

  /** Threads in queues are live, not running, fit their queue, and are in no other. */
  ghost predicate Placed(s: State) {
    && (forall n, t :: In(s, n, t) ==> t in s.tcbs && Fits(n, s.tcbs[t]) && s.current != Some(t))
    && (forall n, m, t :: In(s, n, t) && In(s, m, t) ==> n == m)
  }

  /** No live thread is lost. */
  ghost predicate Covered(s: State) {
    forall t :: t in s.tcbs ==> s.current == Some(t) || exists n :: In(s, n, t)
  }

  ghost predicate Inv(s: State) {
    && Ordered(s) && Placed(s) && Covered(s)
    && (s.current.Some? ==> s.current.value in s.tcbs && s.tcbs[s.current.value].state == Ready)
  }

  lemma InContains(s: State, n: QueueName, t: Tid)
    ensures In(s, n, t) <==> Contains(s.Get(n), t)
  {
    if In(s, n, t) {
      var i :| 0 <= i < |s.Get(n)| && s.Get(n)[i].item == t;
    }
    if Contains(s.Get(n), t) {
      var i :| 0 <= i < |s.Get(n)| && s.Get(n)[i].item == t;
      assert s.Get(n)[i].item in Items(s.Get(n));
    }
  }

  /** A thread enters queue n from outside all queues: newly made, or just back from running. */
  lemma Enter(s: State, n: QueueName, prio: int, t: Tid, c: Tcb)
    requires Ordered(s) && Placed(s) && s.current != Some(t)
    requires forall m :: !In(s, m, t)
    requires forall x :: x in s.tcbs && x != t ==> s.current == Some(x) || exists m :: In(s, m, x)
    requires Fits(n, c)
    ensures var s' := s.SetTcb(t, c).Put(n, Insert(s.Get(n), prio, t));
            Ordered(s') && Placed(s') && Covered(s')
  {
    hide Items, Sorted, Distinct, Insert, Fits, Ordered;
    var s' := s.SetTcb(t, c).Put(n, Insert(s.Get(n), prio, t));
    assert In(s, n, t) || t !in Items(s.Get(n));
    InsertItems(s.Get(n), prio, t);
    EnterOrdered(s, n, prio, t, c);
    InsertedInto(s, n, prio, t, c);
  }

  lemma EnterOrdered(s: State, n: QueueName, prio: int, t: Tid, c: Tcb)
    requires Ordered(s) && t !in Items(s.Get(n))
    ensures Ordered(s.SetTcb(t, c).Put(n, Insert(s.Get(n), prio, t)))
  {
    hide Items, Sorted, Distinct, Insert;
    InsertSorted(s.Get(n), prio, t);
    InsertItems(s.Get(n), prio, t);
    var s' := s.SetTcb(t, c).Put(n, Insert(s.Get(n), prio, t));
    assert forall m :: m != n ==> s'.Get(m) == s.Get(m);
  }

  /** A thread leaves queue n for nowhere. */
  lemma Depart(s: State, n: QueueName, t: Tid)
    requires Ordered(s) && Placed(s) && Covered(s) && In(s, n, t)
    ensures Contains(s.Get(n), t)
    ensures var s' := s.Put(n, Delete(s.Get(n), t));
            && Ordered(s') && Placed(s') && (forall m :: !In(s', m, t))
            && (forall x :: x in s'.tcbs && x != t ==> s'.current == Some(x) || exists m :: In(s', m, x))
            && (forall m, x :: In(s', m, x) ==> In(s, m, x))
  {
    hide Items, Sorted, Distinct, Delete, Contains, Fits, Ordered;
    InContains(s, n, t);
    var s' := s.Put(n, Delete(s.Get(n), t));
    DeleteFacts(s.Get(n), t);
    QueueDistinct(s, n);
    OnlyThere(s, n, t);
    RemovedFrom(s, n, t);
    DepartOrdered(s, n, t);
  }

  lemma QueueDistinct(s: State, n: QueueName)
    requires Ordered(s)
    ensures Sorted(s.Get(n)) && Distinct(s.Get(n))
  {
  }

  lemma DepartOrdered(s: State, n: QueueName, t: Tid)
    requires Ordered(s) && Contains(s.Get(n), t)
    ensures Ordered(s.Put(n, Delete(s.Get(n), t)))
  {
    hide Items, Sorted, Distinct, Delete, Contains;
    DeleteFacts(s.Get(n), t);
    var s' := s.Put(n, Delete(s.Get(n), t));
    forall m
      ensures Sorted(s'.Get(m)) && Distinct(s'.Get(m))
    {
      assert s'.Get(m) == if m == n then Delete(s.Get(n), t) else s.Get(m);
    }
  }

  // ---- every operation of a running thread

  /** Moving a thread, with its control block c, to a queue that c fits. */
  lemma MoveKeeps(s: State, from: QueueName, to: QueueName, prio: int, t: Tid, c: Tcb)
    requires Inv(s) && In(s, from, t) && Fits(to, c)
    ensures Contains(s.SetTcb(t, c).Get(from), t)
    ensures Inv(Move(s.SetTcb(t, c), from, to, prio, t))
    ensures forall n :: In(Move(s.SetTcb(t, c), from, to, prio, t), n, t) <==> n == to
  {
    hide In, Ordered, Placed, Covered, Fits, Insert, Delete, Contains;
    Depart(s, from, t);
    var s1 := s.Put(from, Delete(s.Get(from), t));
    NotCurrent(s, from, t);
    Enter(s1, to, prio, t, c);
    assert s.SetTcb(t, c).Get(from) == s.Get(from);
    var s2 := s1.SetTcb(t, c).Put(to, Insert(s1.Get(to), prio, t));
    assert s2 == Move(s.SetTcb(t, c), from, to, prio, t);
    InsertedInto(s1, to, prio, t, c);
  }

  lemma SameTcb(s: State, t: Tid)
    requires t in s.tcbs
    ensures s.SetTcb(t, s.tcbs[t]) == s
  {
    assert s.tcbs[t := s.tcbs[t]] == s.tcbs;
  }

  lemma NotCurrent(s: State, n: QueueName, t: Tid)
    requires Placed(s) && In(s, n, t)
    ensures s.current != Some(t) && t in s.tcbs && Fits(n, s.tcbs[t])
  {
  }

  lemma DropKeeps(s: State, n: QueueName, t: Tid)
    requires Inv(s) && In(s, n, t)
    ensures Contains(s.Get(n), t)
    ensures var s1 := s.Put(n, Delete(s.Get(n), t));
            Inv(s1.(tcbs := s1.tcbs - {t}))
  {
    hide Fits, Insert, Delete, Contains, Items, Sorted, Distinct;
    Depart(s, n, t);
    NotCurrent(s, n, t);
    var s1 := s.Put(n, Delete(s.Get(n), t));
    Forget(s1, t);
  }

  /** A control block is freed that nothing points to any more. */
  lemma Forget(s: State, t: Tid)
    requires Ordered(s) && Placed(s) && s.current != Some(t)
    requires forall m :: !In(s, m, t)
    requires forall x :: x in s.tcbs && x != t ==> s.current == Some(x) || exists m :: In(s, m, x)
    requires s.current.Some? ==> s.current.value in s.tcbs && s.tcbs[s.current.value].state == Ready
    ensures Inv(s.(tcbs := s.tcbs - {t}))
  {
    hide Fits, Items, Sorted, Distinct;
    var s' := s.(tcbs := s.tcbs - {t});
    assert forall n :: s'.Get(n) == s.Get(n);
    assert forall m, x :: In(s', m, x) <==> In(s, m, x);
  }

  lemma SpawnKeeps(s: State, t: Tid, c: Tcb)
    requires Inv(s) && t !in s.tcbs
    ensures Inv(Spawn(s, t, c))
    ensures forall n, x :: In(Spawn(s, t, c), n, x) <==> In(s, n, x) || (n == NQ && x == t)
    ensures Spawn(s, t, c).tcbs.Keys == s.tcbs.Keys + {t} && Spawn(s, t, c).tcbs[t].state == New
    ensures forall x :: x in s.tcbs ==> Spawn(s, t, c).tcbs[x] == s.tcbs[x]
  {
    hide Items, Sorted, Distinct, Insert, Ordered, Covered, Fits;
    Strangers(s, t);
    var c' := c.(state := New, cancelReq := false, joinArg := 0, ring := []);
    FreshFits(c');
    StrangersCovered(s, t);
    Enter(s, NQ, c.prio, t, c');
    InsertedInto(s, NQ, c.prio, t, c');
  }

  lemma FreshFits(c: Tcb)
    requires c.state == New
    ensures Fits(NQ, c)
  {
  }

  lemma StrangersCovered(s: State, t: Tid)
    requires Covered(s)
    ensures forall x :: x in s.tcbs && x != t ==> s.current == Some(x) || exists m :: In(s, m, x)
  {
  }

  /** Who is where after an insertion. */
  lemma InsertedInto(s: State, n: QueueName, prio: int, t: Tid, c: Tcb)
    ensures var s' := s.SetTcb(t, c).Put(n, Insert(s.Get(n), prio, t));
            forall m, x :: In(s', m, x) <==> In(s, m, x) || (m == n && x == t)
  {
    hide Items, Insert;
    InsertItems(s.Get(n), prio, t);
    var s' := s.SetTcb(t, c).Put(n, Insert(s.Get(n), prio, t));
    forall m, x
      ensures In(s', m, x) <==> In(s, m, x) || (m == n && x == t)
    {
      if m == n {
        assert s'.Get(n) == Insert(s.Get(n), prio, t);
      } else {
        assert s'.Get(m) == s.Get(m);
      }
    }
  }

  /** Who is where after a removal. */
  lemma RemovedFrom(s: State, n: QueueName, t: Tid)
    requires Distinct(s.Get(n)) && Contains(s.Get(n), t)
    ensures var s' := s.Put(n, Delete(s.Get(n), t));
            forall m, x :: In(s', m, x) <==> In(s, m, x) && !(m == n && x == t)
  {
    hide Items, Delete, Contains, Distinct;
    DeleteFacts(s.Get(n), t);
    var s' := s.Put(n, Delete(s.Get(n), t));
    forall m, x
      ensures In(s', m, x) <==> In(s, m, x) && !(m == n && x == t)
    {
      if m == n {
        assert s'.Get(n) == Delete(s.Get(n), t);
      } else {
        assert s'.Get(m) == s.Get(m);
      }
    }
  }

  /** A move changes the place of one thread and of no other. */
  lemma MovedOne(s: State, from: QueueName, to: QueueName, prio: int, t: Tid)
    requires Inv(s) && In(s, from, t)
    ensures Contains(s.Get(from), t)
    ensures forall n, x :: In(Move(s, from, to, prio, t), n, x) <==> if x == t then n == to else In(s, n, x)
  {
    hide Ordered, Placed, Covered, In, Insert, Delete, Contains, Distinct;
    InContains(s, from, t);
    QueueDistinct(s, from);
    OnlyThere(s, from, t);
    RemovedFrom(s, from, t);
    var s1 := s.Put(from, Delete(s.Get(from), t));
    NotCurrent(s, from, t);
    SameTcb(s1, t);
    InsertedInto(s1, to, prio, t, s.tcbs[t]);
  }

  lemma OnlyThere(s: State, n: QueueName, t: Tid)
    requires Placed(s) && In(s, n, t)
    ensures forall m :: In(s, m, t) <==> m == n
  {
  }

  /** Resuming undoes suspending, as far as queues and control blocks go: the thread is back in the
      queue it came from, though at the standard priority, and every other thread is where it was. */
  lemma SuspendThenResume(s: State, t: Tid)
    requires Inv(s) && t in s.tcbs && Suspend(s, t).1 == None
    ensures var s1 := Suspend(s, t).0;
            && t in s1.tcbs && (Contains(s1.sq, t) ==> QueueOf(s1.tcbs[t].state).Some?)
            && Resume(s1, t).1 == None
            && Resume(s1, t).0.tcbs == s.tcbs && Resume(s1, t).0.current == s.current
            && forall n, x :: In(Resume(s1, t).0, n, x) <==> In(s, n, x)
  {
    hide Inv, In, Move, Contains;
    SuspendKeeps(s, t);
    var s1 := Suspend(s, t).0;
    var q := QueueOf(s.tcbs[t].state).value;
    Suspended(s, t, q);
    InContains(s1, SQ, t);
    ResumeKeeps(s1, t);
    MovedOne(s1, SQ, q, PRIO_STD, t);
    MoveTcbs(s1, SQ, q, PRIO_STD, t);
  }

  lemma Suspended(s: State, t: Tid, q: QueueName)
    requires Inv(s) && t in s.tcbs && Suspend(s, t).1 == None && QueueOf(s.tcbs[t].state) == Some(q)
    ensures In(s, q, t) && Contains(s.Get(q), t) && Suspend(s, t).0 == Move(s, q, SQ, PRIO_STD, t)
    ensures Suspend(s, t).0.tcbs == s.tcbs && Suspend(s, t).0.current == s.current
    ensures forall n :: In(s, n, t) <==> n == q
    ensures forall n, x :: In(Suspend(s, t).0, n, x) <==> if x == t then n == SQ else In(s, n, x)
  {
    hide Ordered, Placed, Covered, In, Move, Contains;
    InContains(s, q, t);
    OnlyThere(s, q, t);
    MovedOne(s, q, SQ, PRIO_STD, t);
    MoveTcbs(s, q, SQ, PRIO_STD, t);
  }

  lemma FavourKeeps(s: State, to: Tid)
    requires Inv(s) && to in s.tcbs
    ensures Inv(Favour(s, to).0)
    ensures Favour(s, to).0.tcbs == s.tcbs && Favour(s, to).0.current == s.current
    ensures forall n, x :: In(Favour(s, to).0, n, x) <==> In(s, n, x)
  {
    hide Placed, Covered, Sorted, Distinct, Items, Contains, Favorite;
    var s' := Favour(s, to).0;
    if Favour(s, to).1 == None {
      var n := QueueOf(s.tcbs[to].state).value;
      assert Sorted(s.Get(n)) && Distinct(s.Get(n));
      FavoriteFacts(s.Get(n), to);
      assert forall m :: m != n ==> s'.Get(m) == s.Get(m);
      SameItems(s, s');
    }
  }

  /** Reordering a queue moves nobody. */
  lemma SameItems(s: State, s': State)
    requires Inv(s) && s'.tcbs == s.tcbs && s'.current == s.current
    requires forall n :: Sorted(s'.Get(n)) && Distinct(s'.Get(n)) && Items(s'.Get(n)) == Items(s.Get(n))
    ensures Inv(s')
  {
    hide Items, Sorted, Distinct, Fits;
    assert forall n, t :: In(s', n, t) <==> In(s, n, t);
  }

  /** Suspending keeps the invariant, and works on every thread that is neither running,
      suspended nor dead. */
  lemma SuspendKeeps(s: State, t: Tid)
    requires Inv(s) && t in s.tcbs
    ensures Inv(Suspend(s, t).0)
    ensures Suspend(s, t).1 == None <==> s.current != Some(t) && !In(s, SQ, t) && s.tcbs[t].state != Dead
    ensures Suspend(s, t).1 == None ==> In(Suspend(s, t).0, SQ, t) && Suspend(s, t).0.tcbs == s.tcbs
  {
    hide In, Ordered, Placed, Covered, Contains, Move;
    Whereabouts(s, t);
    var q := QueueOf(s.tcbs[t].state);
    if Suspend(s, t).1 == None {
      NotCurrent(s, q.value, t);
      MoveKeeps(s, q.value, SQ, PRIO_STD, t, s.tcbs[t]);
      SameTcb(s, t);
      MoveTcbs(s, q.value, SQ, PRIO_STD, t);
    }
  }

  lemma MoveTcbs(s: State, from: QueueName, to: QueueName, prio: int, t: Tid)
    requires Contains(s.Get(from), t)
    ensures Move(s, from, to, prio, t).tcbs == s.tcbs && Move(s, from, to, prio, t).current == s.current
  {
    hide Delete, Insert, Contains;
  }

  /** Which queue a thread is in, read off its state. */
  lemma Whereabouts(s: State, t: Tid)
    requires Inv(s) && t in s.tcbs
    ensures forall n :: In(s, n, t) <==> Contains(s.Get(n), t)
    ensures s.current == Some(t) ==> forall n :: !In(s, n, t)
    ensures s.current != Some(t) && s.tcbs[t].state == Dead ==> forall n :: In(s, n, t) <==> n == DQ
    ensures s.current != Some(t) && s.tcbs[t].state != Dead ==>
              forall n :: In(s, n, t) <==> n == if In(s, SQ, t) then SQ else QueueOf(s.tcbs[t].state).value
  {
    forall n
      ensures In(s, n, t) <==> Contains(s.Get(n), t)
    {
      InContains(s, n, t);
    }
    hide In, Contains;
    if s.current != Some(t) {
      var n :| In(s, n, t);
      assert Fits(n, s.tcbs[t]);
      forall m
        ensures In(s, m, t) <==> m == n
      {
      }
    }
  }

  /** A suspended thread is New, Ready or Waiting, so resuming it always finds a queue. */
  lemma ResumeDefined(s: State, t: Tid)
    requires Inv(s) && Contains(s.sq, t)
    ensures t in s.tcbs && QueueOf(s.tcbs[t].state).Some?
  {
    InContains(s, SQ, t);
    assert In(s, SQ, t);
  }

  lemma ResumeKeeps(s: State, t: Tid)
    requires Inv(s) && t in s.tcbs && (Contains(s.sq, t) ==> QueueOf(s.tcbs[t].state).Some?)
    ensures Inv(Resume(s, t).0)
    ensures Resume(s, t).1 == None <==> In(s, SQ, t)
    ensures Resume(s, t).1 == None ==> !In(Resume(s, t).0, SQ, t) && Resume(s, t).0.tcbs == s.tcbs
  {
    hide In, Ordered, Placed, Covered, Contains, Move;
    Whereabouts(s, t);
    if In(s, SQ, t) {
      var q := QueueOf(s.tcbs[t].state).value;
      NotCurrent(s, SQ, t);
      MoveKeeps(s, SQ, q, PRIO_STD, t, s.tcbs[t]);
      SameTcb(s, t);
      MoveTcbs(s, SQ, q, PRIO_STD, t);
    }
  }

  /** States with the same queues have everybody in the same place. */
  lemma SameQueues(s: State, s': State)
    requires forall n :: s'.Get(n) == s.Get(n)
    ensures forall n, x :: In(s', n, x) <==> In(s, n, x)
    ensures Ordered(s) ==> Ordered(s')
  {
    hide Items, Sorted, Distinct;
  }

  lemma TweakFits(c: Tcb, c': Tcb)
    requires c'.state == c.state && c'.ring == c.ring && (c.state == Dead ==> c'.joinable == c.joinable)
    ensures forall n :: Fits(n, c) ==> Fits(n, c')
  {
  }

  /** Changing flags of a control block moves nobody. */
  lemma TweakKeeps(s: State, t: Tid, c: Tcb)
    requires Inv(s) && t in s.tcbs && c.state == s.tcbs[t].state && c.ring == s.tcbs[t].ring
    requires c.state == Dead ==> c.joinable == s.tcbs[t].joinable
    ensures Inv(s.SetTcb(t, c))
    ensures forall n, x :: In(s.SetTcb(t, c), n, x) <==> In(s, n, x)
  {
    hide Items, Sorted, Distinct, Ordered, Fits;
    var s' := s.SetTcb(t, c);
    SameQueues(s, s');
    TweakFits(s.tcbs[t], c);
  }

  /** Cancelling keeps the invariant.  A request to a suspended thread in asynchronous mode
      is refused with ESRCH although the request flag is already set. */
  lemma CancelKeeps(s: State, t: Tid)
    requires Inv(s) && t in s.tcbs
    ensures Inv(Cancel(s, t).0) && Cancel(s, t).0.current == s.current
    ensures Cancel(s, t).1 == Some(ESRCH) <==>
              s.current != Some(t) && s.tcbs[t].state != Dead && In(s, SQ, t)
              && s.tcbs[t].cancelEnabled && s.tcbs[t].cancelAsync
    ensures Cancel(s, t).1 == Some(ESRCH) ==> t in Cancel(s, t).0.tcbs && Cancel(s, t).0.tcbs[t].cancelReq
  {
    hide In, Ordered, Placed, Covered, Contains, Move, Delete, Insert;
    Whereabouts(s, t);
    if s.current != Some(t) && s.tcbs[t].state != Dead {
      var q := QueueOf(s.tcbs[t].state).value;
      var c := s.tcbs[t].(cancelReq := true);
      TweakKeeps(s, t, c);
      var s1 := s.SetTcb(t, c);
      assert s1.Get(q) == s.Get(q);
      if s.tcbs[t].cancelEnabled && s.tcbs[t].cancelAsync && Contains(s.Get(q), t) {
        if s.tcbs[t].joinable {
          var c2 := c.(joinArg := CANCELED, state := Dead);
          MoveKeeps(s1, q, DQ, PRIO_STD, t, c2);
          MoveTcbs(s1.SetTcb(t, c2), q, DQ, PRIO_STD, t);
        } else {
          DropKeeps(s1, q, t);
        }
      }
    }
  }

  /** In every reachable state a dead thread is found in the dead queue, and the dead queue
      holds live control blocks only: what pth_join relies on. */
  lemma DeadAreQueued(s: State)
    requires Inv(s)
    ensures forall t :: t in s.tcbs && s.tcbs[t].state == Dead ==> Contains(s.dq, t)
    ensures forall t :: t in Items(s.dq) ==> t in s.tcbs && s.tcbs[t].state == Dead && s.tcbs[t].joinable
  {
    forall t | t in s.tcbs && s.tcbs[t].state == Dead
      ensures Contains(s.dq, t)
    {
      Whereabouts(s, t);
      assert In(s, DQ, t) ==> Contains(s.Get(DQ), t);
    }
    forall t | t in Items(s.dq)
      ensures t in s.tcbs && s.tcbs[t].state == Dead && s.tcbs[t].joinable
    {
      assert In(s, DQ, t);
    }
  }

  lemma ReapKeeps(s: State, t: Tid)
    requires Inv(s) && t in s.tcbs && s.tcbs[t].state == Dead
    ensures Contains(s.dq, t) && Inv(Reap(s, t)) && Reap(s, t).tcbs == s.tcbs - {t}
  {
    hide Delete;
    DeadAreQueued(s);
    InContains(s, DQ, t);
    DropKeeps(s, DQ, t);
  }

  ghost predicate JoinGood(s: State, tid: Option<Tid>, j: Join) {
    j.Joined? ==>
      && Inv(j.state)
      && exists t :: t in s.tcbs && s.tcbs[t].state == Dead && (tid.Some? ==> t == tid.value)
                     && j.value == s.tcbs[t].joinArg && j.state.tcbs == s.tcbs - {t}
  }

  lemma JoinIsSafe(s: State, tid: Option<Tid>)
    requires Inv(s) && (tid.Some? ==> tid.value in s.tcbs)
    ensures JoinSafe(s, tid)
  {
    hide Inv, Contains;
    DeadAreQueued(s);
    assert s.dq != [] ==> s.dq[0].item in Items(s.dq);
  }

  /** Joining removes exactly one dead thread, the one asked for, and hands out its result. */
  lemma JoinKeeps(s: State, tid: Option<Tid>)
    requires Inv(s) && JoinSafe(s, tid)
    ensures JoinGood(s, tid, JoinBegin(s, tid)) && JoinGood(s, tid, JoinEnd(s, tid))
  {
    hide Inv, Contains, Reap;
    var t := JoinTarget(s, tid);
    if t.Some? && s.tcbs[t.value].state == Dead {
      ReapKeeps(s, t.value);
    }
  }

  /** What a failed abort does to its thread. */
  ghost predicate LeftDetached(s: State, t: Tid) {
    t in s.tcbs && !s.tcbs[t].joinable && s.tcbs[t].cancelReq && s.tcbs[t].cancelEnabled && s.tcbs[t].cancelAsync
  }

  /** Abort keeps the invariant and gets rid of the thread, unless it is running or suspended; a
      suspended one stays, but detached and with a pending request. */
  lemma AbortKeeps(s: State, t: Tid)
    requires Inv(s) && t in s.tcbs && JoinSafe(s, Some(t))
    ensures Inv(Abort(s, t).0)
    ensures Abort(s, t).1 == None <==> s.current != Some(t) && !In(s, SQ, t)
    ensures Abort(s, t).1 == None ==> t !in Abort(s, t).0.tcbs
    ensures In(s, SQ, t) ==> Abort(s, t).1 == Some(ESRCH) && LeftDetached(Abort(s, t).0, t)
  {
    hide Ordered, Placed, Covered, Contains, Cancel, Reap, Items;
    Whereabouts(s, t);
    if s.current != Some(t) {
      if s.tcbs[t].state == Dead {
        NotCurrent(s, DQ, t);
        ReapKeeps(s, t);
        NonEmpty(s, DQ, t);
      } else {
        var c := s.tcbs[t].(joinable := false, cancelEnabled := true, cancelAsync := true);
        TweakKeeps(s, t, c);
        CancelKeeps(s.SetTcb(t, c), t);
        CancelFrees(s.SetTcb(t, c), t);
      }
    }
  }

  lemma NonEmpty(s: State, n: QueueName, t: Tid)
    requires In(s, n, t)
    ensures s.Get(n) != []
  {
  }

  lemma CancelFrees(s: State, t: Tid)
    requires Inv(s) && t in s.tcbs && !s.tcbs[t].joinable && s.tcbs[t].cancelEnabled && s.tcbs[t].cancelAsync
    requires s.current != Some(t) && s.tcbs[t].state != Dead
    ensures if Cancel(s, t).1 == None then t !in Cancel(s, t).0.tcbs
            else Cancel(s, t).1 == Some(ESRCH) && LeftDetached(Cancel(s, t).0, t)
  {
    hide Contains, Delete;
  }

  // ---- the scheduler loop

  lemma Outside(s: State)
    requires Inv(s) && s.current.Some?
    ensures var s0 := s.(current := None);
            && Ordered(s0) && Placed(s0) && (forall m :: !In(s0, m, s.current.value))
            && (forall x :: x in s0.tcbs && x != s.current.value ==> exists m :: In(s0, m, x))
  {
    hide Items, Sorted, Distinct, Fits;
    var s0 := s.(current := None);
    assert forall n :: s0.Get(n) == s.Get(n);
    assert forall n, x :: In(s0, n, x) <==> In(s, n, x);
  }

  lemma AgeKeeps(s: State)
    requires Inv(s)
    ensures Inv(s.Put(RQ, Increase(s.rq)))
  {
    hide Items, Sorted, Distinct, Increase, Placed, Covered;
    var s' := s.Put(RQ, Increase(s.rq));
    assert Sorted(s.Get(RQ)) && Distinct(s.Get(RQ));
    IncreaseFacts(s.rq);
    assert forall n :: n != RQ ==> s'.Get(n) == s.Get(n);
    SameItems(s, s');
  }

  lemma ResetPending(ring: EM.Ring)
    ensures !EM.AnyOccurred(Reset(ring))
  {
  }

  lemma ReturnKeeps(s: State, l: Leave)
    requires Inv(s) && s.current.Some?
    ensures Inv(Return(s, l)) && Return(s, l).current == None
  {
    hide In, Ordered, Placed, Covered, Insert, Increase, Reset, Items;
    Outside(s);
    var s0, t, c := s.(current := None), s.current.value, s.tcbs[s.current.value];
    match l {
      case Exits(v) =>
        if c.joinable {
          var c1 := c.(state := Dead, joinArg := v);
          Enter(s0, DQ, PRIO_STD, t, c1);
          AgeKeeps(s0.SetTcb(t, c1).Put(DQ, Insert(s.dq, PRIO_STD, t)));
        } else {
          Forget(s0, t);
          AgeKeeps(s0.(tcbs := s0.tcbs - {t}));
        }
      case Waits(ring) =>
        var c1 := c.(state := Waiting, ring := Reset(ring));
        ResetPending(ring);
        Enter(s0, WQ, c.prio, t, c1);
        AgeKeeps(s0.SetTcb(t, c1).Put(WQ, Insert(s.wq, c.prio, t)));
      case Yields =>
        var s1 := s.Put(RQ, Increase(s.rq));
        AgeKeeps(s);
        Outside(s1);
        Enter(s1.(current := None), RQ, c.prio, t, c);
        SameTcb(s0, t);
    }
  }

  lemma WaitersAreLive(s: State)
    requires Inv(s)
    ensures WaitersLive(s)
  {
    forall i | 0 <= i < |s.wq|
      ensures s.wq[i].item in s.tcbs
    {
      assert In(s, WQ, s.wq[i].item);
    }
  }

  /** Who is woken, said of the threads and their new rings. */
  lemma WokenMeaning(s: State, rings: seq<EM.Ring>, t: Tid)
    requires WaitersLive(s) && |rings| == |s.wq| && Distinct(s.wq) && t in Items(s.wq)
    ensures t in s.tcbs
    ensures t in Woken(s, rings) <==> EM.AnyOccurred(RingOf(s, rings, t)) || s.tcbs[t].cancelReq
  {
    hide EM.AnyOccurred;
    var i :| 0 <= i < |s.wq| && s.wq[i].item == t;
    assert RingOf(s, rings, t) == rings[i];
  }

  /** The event manager wakes exactly the waiting threads that have an event that is no longer
      pending or a cancellation request; they are ready afterwards, the others still wait. */
  lemma EventPassWakes(s: State, polled: set<nat>, late: map<nat, Status>, t: Tid)
    requires Inv(s) && WaitersLive(s) && In(s, WQ, t)
    ensures var s' := EventPass(s, polled, late);
            && t in s'.tcbs
            && (if EM.AnyOccurred(s'.tcbs[t].ring) || s.tcbs[t].cancelReq
                then In(s', RQ, t) && !In(s', WQ, t) && s'.tcbs[t].state == Ready
                else In(s', WQ, t) && !In(s', RQ, t) && s'.tcbs[t].state == Waiting)
  {
    var (env, rings) := Polled(s, polled, late);
    PassItems(s, polled, late);
    assert Sorted(s.Get(WQ)) && Distinct(s.Get(WQ)) && In(s, RQ, t) ==> false;
    assert Fits(WQ, s.tcbs[t]);
    WokenMeaning(s, rings, t);
  }

  lemma PassItems(s: State, polled: set<nat>, late: map<nat, Status>)
    requires Inv(s) && WaitersLive(s)
    ensures var s', woken := EventPass(s, polled, late), Woken(s, Polled(s, polled, late).1);
            && Items(s'.wq) == Items(s.wq) - woken && Distinct(s'.wq) && Sorted(s'.wq)
            && Items(s'.rq) == Items(s.rq) + (Items(s.wq) * woken) && Distinct(s'.rq) && Sorted(s'.rq)
  {
    hide Items, Sorted, Distinct, Keep, WakeInto, Woken, Polled, Fits, WakeTcbs;
    var woken := Woken(s, Polled(s, polled, late).1);
    assert Sorted(s.Get(WQ)) && Distinct(s.Get(WQ)) && Sorted(s.Get(RQ)) && Distinct(s.Get(RQ));
    KeepFacts(s.wq, woken);
    KeepSorted(s.wq, woken);
    assert Items(s.wq) !! Items(s.rq) by {
      forall t | t in Items(s.wq)
        ensures t !in Items(s.rq)
      {
        assert In(s, WQ, t);
        assert In(s, RQ, t) <==> t in Items(s.rq);
      }
    }
    WakeIntoFacts(s.wq, s.rq, woken, Base(s));
  }

  /** Whether t is in queue n once the threads of moved went from a to b. */
  ghost predicate InAfter(s: State, a: QueueName, b: QueueName, moved: set<Tid>, n: QueueName, t: Tid) {
    if n == a then In(s, a, t) && t !in moved
    else In(s, n, t) || (n == b && In(s, a, t) && t in moved)
  }

  lemma TransferCovers(s: State, s': State, a: QueueName, b: QueueName, moved: set<Tid>)
    requires Covered(s) && s'.current == s.current && s'.tcbs.Keys == s.tcbs.Keys && a != b
    requires forall n, t :: In(s', n, t) <==> InAfter(s, a, b, moved, n, t)
    ensures Covered(s')
  {
    hide In;
    forall t | t in s'.tcbs
      ensures s'.current == Some(t) || exists n :: In(s', n, t)
    {
      if s.current != Some(t) {
        var n :| In(s, n, t);
        assert In(s', if n == a && t in moved then b else n, t);
      }
    }
  }

  /** Threads change places from queue a to queue b, and their control blocks follow. */
  lemma Transfer(s: State, s': State, a: QueueName, b: QueueName, moved: set<Tid>)
    requires Inv(s) && s'.current == s.current && s'.tcbs.Keys == s.tcbs.Keys && Ordered(s') && a != b
    requires forall n, t :: In(s', n, t) <==> InAfter(s, a, b, moved, n, t)
    requires forall t :: t in s.tcbs && !In(s, a, t) ==> s'.tcbs[t] == s.tcbs[t]
    requires forall t :: t in s.tcbs && In(s, a, t) ==> Fits(if t in moved then b else a, s'.tcbs[t])
    ensures Inv(s')
  {
    hide In, Ordered, Fits, Covered;
    TransferCovers(s, s', a, b, moved);
    forall n, t | In(s', n, t)
      ensures t in s'.tcbs && Fits(n, s'.tcbs[t]) && s'.current != Some(t)
    {
      var m := if n == b && In(s, a, t) then a else n;
      assert In(s, m, t);
    }
  }

  lemma EventPassKeeps(s: State, polled: set<nat>, late: map<nat, Status>)
    requires Inv(s) && WaitersLive(s)
    ensures Inv(EventPass(s, polled, late)) && EventPass(s, polled, late).current == s.current
  {
    hide Placed, Covered, Sorted, Distinct, Keep, WakeInto, Woken, Polled;
    var rings := Polled(s, polled, late).1;
    var s', woken := EventPass(s, polled, late), Woken(s, rings);
    PassItems(s, polled, late);
    assert forall n :: n != WQ && n != RQ ==> s'.Get(n) == s.Get(n);
    forall n, t
      ensures In(s', n, t) <==> InAfter(s, WQ, RQ, woken, n, t)
    {
    }
    forall t | t in s.tcbs && In(s, WQ, t)
      ensures Fits(if t in woken then RQ else WQ, s'.tcbs[t])
    {
      NotCurrent(s, WQ, t);
      assert Distinct(s.Get(WQ));
      WokenMeaning(s, rings, t);
    }
    Transfer(s, s', WQ, RQ, woken);
  }

  lemma {:induction false} DrainFacts(nq: Queue<Tid>, rq: Queue<Tid>, favour: bool)
    requires Distinct(nq) && Distinct(rq) && Sorted(rq) && Items(nq) !! Items(rq)
    ensures var r := DrainInto(nq, rq, favour);
            Distinct(r) && Sorted(r) && Items(r) == Items(rq) + Items(nq)
    decreases |nq|
  {
    NoItems<Tid>();
    hide Items, Sorted, Distinct, Insert, FavoritePrio;
    if nq != [] {
      var v, e := nq[..|nq| - 1], nq[|nq| - 1];
      assert nq == v + [e];
      Snoc(v, e);
      var p := if favour then FavoritePrio(rq) else PRIO_STD;
      InsertItems(rq, p, e.item);
      InsertSorted(rq, p, e.item);
      DrainFacts(v, Insert(rq, p, e.item), favour);
    }
  }

  lemma DrainKeeps(s: State)
    requires Inv(s)
    ensures Inv(Drain(s)) && Drain(s).current == s.current && Drain(s).tcbs.Keys == s.tcbs.Keys
  {
    hide Placed, Covered, Sorted, Distinct, DrainInto;
    NoItems<Tid>();
    var s' := Drain(s);
    assert Distinct(s.Get(NQ)) && Distinct(s.Get(RQ)) && Sorted(s.Get(RQ));
    QueuesDisjoint(s, NQ, RQ);
    DrainFacts(s.nq, s.rq, s.favourNew);
    NoThreads();
    assert forall n :: n != NQ && n != RQ ==> s'.Get(n) == s.Get(n);
    forall n, t
      ensures In(s', n, t) <==> InAfter(s, NQ, RQ, Items(s.nq), n, t)
    {
    }
    forall t | t in s.tcbs && In(s, NQ, t)
      ensures Fits(RQ, s'.tcbs[t])
    {
    }
    Transfer(s, s', NQ, RQ, Items(s.nq));
  }

  lemma NoThreads()
    ensures Sorted<Tid>([]) && Distinct<Tid>([])
  {
  }

  lemma QueuesDisjoint(s: State, n: QueueName, m: QueueName)
    requires Placed(s) && n != m
    ensures Items(s.Get(n)) !! Items(s.Get(m))
  {
    forall t | t in Items(s.Get(n))
      ensures t !in Items(s.Get(m))
    {
      assert In(s, n, t) && (In(s, m, t) <==> t in Items(s.Get(m)));
    }
  }

  /** The next thread is taken from the front of the ready queue. */
  lemma DispatchKeeps(s: State)
    requires Inv(s) && s.current == None
    ensures Dispatch(s).Some? ==> Inv(Dispatch(s).value) && Dispatch(s).value.current.Some?
    ensures Dispatch(s).Some? ==> Dispatch(s).value.tcbs.Keys == s.tcbs.Keys
    ensures Dispatch(s) == None <==> s.nq == [] && s.rq == []
  {
    hide Placed, Covered, Sorted, Distinct, DrainInto, Items, Contains, Delete;
    DrainKeeps(s);
    DrainEmpty(s.nq, s.rq, s.favourNew);
    var s1 := Drain(s);
    if s1.rq != [] {
      var t := s1.rq[0].item;
      assert Distinct(s1.Get(RQ));
      DeleteAt(s1.rq, t, 0);
      assert Delete(s1.rq, t) == s1.rq[1..];
      InContains(s1, RQ, t);
      NotCurrent(s1, RQ, t);
      Depart(s1, RQ, t);
      Chosen(s1.Put(RQ, s1.rq[1..]), t);
    }
  }

  lemma {:induction false} DrainEmpty(nq: Queue<Tid>, rq: Queue<Tid>, favour: bool)
    ensures DrainInto(nq, rq, favour) == [] <==> nq == [] && rq == []
    decreases |nq|
  {
    if nq != [] {
      var t := nq[|nq| - 1].item;
      DrainEmpty(nq[..|nq| - 1], Insert(rq, if favour then FavoritePrio(rq) else PRIO_STD, t), favour);
    }
  }

  lemma Chosen(s: State, t: Tid)
    requires Ordered(s) && Placed(s) && s.current == None && t in s.tcbs && s.tcbs[t].state == Ready
    requires forall m :: !In(s, m, t)
    requires forall x :: x in s.tcbs && x != t ==> s.current == Some(x) || exists m :: In(s, m, x)
    ensures Inv(s.(current := Some(t)))
  {
    hide Items, Sorted, Distinct, Fits;
    var s' := s.(current := Some(t));
    assert forall n :: s'.Get(n) == s.Get(n);
    assert forall n, x :: In(s', n, x) <==> In(s, n, x);
  }

  // ---- counting threads

  ghost function Living(s: State): set<Tid> {
    set t | t in s.tcbs && s.tcbs[t].state != Dead && s.current != Some(t)
  }

  lemma QueueSizes(s: State)
    requires Ordered(s)
    ensures forall n :: |Items(s.Get(n))| == |s.Get(n)|
  {
    hide Items, Sorted, Distinct;
    forall n
      ensures |Items(s.Get(n))| == |s.Get(n)|
    {
      CountItems(s.Get(n));
    }
  }

  lemma LivingMeaning(s: State)
    requires Inv(s)
    ensures forall t :: t in Living(s) <==> In(s, NQ, t) || In(s, RQ, t) || In(s, WQ, t) || In(s, SQ, t)
  {
    hide Ordered, Placed, Covered, In, Contains;
    forall t
      ensures t in Living(s) <==> In(s, NQ, t) || In(s, RQ, t) || In(s, WQ, t) || In(s, SQ, t)
    {
      if t in s.tcbs {
        Whereabouts(s, t);
      } else {
        Strangers(s, t);
      }
    }
  }

  lemma Strangers(s: State, t: Tid)
    requires Placed(s) && t !in s.tcbs
    ensures forall n :: !In(s, n, t)
  {
  }

  lemma LivingItems(s: State)
    requires Inv(s)
    ensures Living(s) == Items(s.nq) + Items(s.rq) + Items(s.wq) + Items(s.sq)
  {
    hide Ordered, Placed, Covered, Items, Sorted, Distinct, Contains, Fits;
    LivingMeaning(s);
    forall t
      ensures t in Living(s) <==> t in Items(s.nq) + Items(s.rq) + Items(s.wq) + Items(s.sq)
    {
      assert In(s, NQ, t) <==> t in Items(s.nq);
      assert In(s, RQ, t) <==> t in Items(s.rq);
      assert In(s, WQ, t) <==> t in Items(s.wq);
      assert In(s, SQ, t) <==> t in Items(s.sq);
    }
  }

  lemma LivingQueues(s: State)
    requires Inv(s)
    ensures |Living(s)| == |s.nq| + |s.rq| + |s.wq| + |s.sq|
  {
    hide Ordered, Placed, Covered, Items, Sorted, Distinct, Living;
    LivingItems(s);
    QueuesDisjoint(s, NQ, RQ);
    QueuesDisjoint(s, NQ, WQ);
    QueuesDisjoint(s, NQ, SQ);
    QueuesDisjoint(s, RQ, WQ);
    QueuesDisjoint(s, RQ, SQ);
    QueuesDisjoint(s, WQ, SQ);
    QueueSizes(s);
    CountFour(Items(s.Get(NQ)), Items(s.Get(RQ)), Items(s.Get(WQ)), Items(s.Get(SQ)));
  }

  lemma CountFour(a: set<Tid>, b: set<Tid>, c: set<Tid>, d: set<Tid>)
    requires a !! b && a !! c && a !! d && b !! c && b !! d && c !! d
    ensures |a + b + c + d| == |a| + |b| + |c| + |d|
  {
    assert (a + b) !! c && (a + b + c) !! d;
  }

  /** The count that pth_ctrl reports, and pth_join tests against one, is the number of
      live threads. */
  lemma ThreadCountExact(s: State)
    requires Inv(s) && s.current.Some?
    ensures ThreadCount(s) == |s.tcbs|
  {
    hide Ordered, Placed, Covered, Items, Sorted, Distinct, Contains, Fits;
    LivingQueues(s);
    var dead := Items(s.dq);
    QueueSizes(s);
    assert |Items(s.Get(DQ))| == |s.dq|;
    DeadAreQueued(s);
    forall t
      ensures t in s.tcbs.Keys <==> t in Living(s) + dead + {s.current.value}
      ensures t in dead ==> s.current != Some(t) && t !in Living(s)
    {
      assert In(s, DQ, t) <==> t in dead;
      if t in s.tcbs {
        Whereabouts(s, t);
      }
    }
    assert s.tcbs.Keys == Living(s) + dead + {s.current.value};
    assert Living(s) !! dead && s.current.value !in Living(s) + dead;
    assert |s.tcbs| == |s.tcbs.Keys|;
  }

  lemma WaitingAlive(s: State, t: Tid)
    requires Placed(s) && In(s, WQ, t)
    ensures s.tcbs[t].state == Waiting
  {
    NotCurrent(s, WQ, t);
  }

  /** While main waits for it, the callback says yes exactly when nobody else is left alive. */
  lemma ExitCallbackWaiting(s: State, main: Tid)
    requires Inv(s) && s.current == None && In(s, WQ, main)
    ensures ExitCallback(s) <==> forall t :: t in s.tcbs && t != main ==> s.tcbs[t].state == Dead
  {
    hide Ordered, Placed, Covered, Items, In, Fits;
    LivingQueues(s);
    NotCurrent(s, WQ, main);
    WaitingAlive(s, main);
    assert main in Living(s);
    if ExitCallback(s) {
      assert |Living(s) - {main}| == 0;
      forall t | t in s.tcbs && t != main
        ensures s.tcbs[t].state == Dead
      {
        assert t !in Living(s) - {main};
      }
    }
    if forall t :: t in s.tcbs && t != main ==> s.tcbs[t].state == Dead {
      assert Living(s) == {main};
    }
  }

  /** Called directly by the running main thread the same test says yes exactly when one other
      thread is still alive: then, and only then, main ends the process without waiting. */
  lemma ExitCallbackRunning(s: State)
    requires Inv(s) && s.current.Some?
    ensures ExitCallback(s) <==> |Living(s)| == 1
    ensures ExitCallback(s) ==> exists t :: t in s.tcbs && s.current != Some(t) && s.tcbs[t].state != Dead
  {
    hide Ordered, Placed, Covered, Items;
    LivingQueues(s);
    if ExitCallback(s) {
      var t :| t in Living(s);
    }
  }
}
