/** Aging prevents starvation: the ready queue's priorities rise by one on every turn of the
    scheduler, so a ready thread is passed over only a bounded number of times. */
module BoundedWaiting {
  import opened Wrappers
  import opened PthTypes
  import opened PrioritySequence
  import opened Scheduler
  import opened SchedulerInvariant
  import opened SchedulerRuns

  function PrioOf<T(==)>(q: Queue<T>, t: T): int
    requires Contains(q, t)
  {
    q[IndexOf(q, t)].prio
  }

  /** A bound on the turns until t is served, in a queue of which no newcomer exceeds
      priority p + 1 and which never holds n threads or more besides the running one. */
  ghost function Distance<T>(q: Queue<T>, t: T, p: int, n: nat): int
    requires Contains(q, t)
  {
    if PrioOf(q, t) > p then IndexOf(q, t) + 1 else p + 1 - PrioOf(q, t) + n
  }

  /** From q to q' thread t keeps its priority and, once above p, is not overtaken. */
  ghost predicate NotOvertaken<T>(q: Queue<T>, q': Queue<T>, t: T, p: int) {
    && Contains(q, t) && Contains(q', t)
    && PrioOf(q', t) == PrioOf(q, t)
    && (PrioOf(q, t) > p ==> IndexOf(q', t) <= IndexOf(q, t))
  }

  lemma AtIndex<T>(q: Queue<T>, t: T, k: nat)
    requires Distinct(q) && k < |q| && q[k].item == t
    ensures Contains(q, t) && IndexOf(q, t) == k
  {
  }

  lemma InsertBehindOld<T>(q: Queue<T>, prio: int, x: T, t: T, p: int)
    requires Sorted(q) && Distinct(q) && Contains(q, t) && x !in Items(q) && prio <= p + 1
    ensures NotOvertaken(q, Insert(q, prio, x), t, p)
  {
    var k, j, r := IndexOf(q, t), Position(q, prio), Insert(q, prio, x);
    assert q[k].item in Items(q);
    InsertItems(q, prio, x);
    var k' := if k < j then k else k + 1;
    assert r[k'] == q[k];
    AtIndex(r, t, k');
  }

  lemma DeleteOther<T>(q: Queue<T>, x: T, t: T, p: int)
    requires Distinct(q) && Contains(q, t) && Contains(q, x) && x != t
    ensures NotOvertaken(q, Delete(q, x), t, p)
  {
    var k, j, r := IndexOf(q, t), IndexOf(q, x), Delete(q, x);
    DeleteFacts(q, x);
    var k' := if k < j then k else k - 1;
    assert r[k'] == q[k];
    AtIndex(r, t, k');
  }

  lemma Older<T>(q: Queue<T>, t: T)
    requires Distinct(q) && Contains(q, t)
    ensures Contains(Increase(q), t)
    ensures IndexOf(Increase(q), t) == IndexOf(q, t) && PrioOf(Increase(q), t) == PrioOf(q, t) + 1
  {
    var k := IndexOf(q, t);
    IncreaseFacts(q);
    assert Increase(q)[k].item == t;
    AtIndex(Increase(q), t, k);
  }

  lemma {:induction false} WakeIntoNotOvertaken<T>(w: Queue<T>, ready: Queue<T>, wake: set<T>, base: T -> int, t: T,
                                                   p: int)
    requires Distinct(w) && Distinct(ready) && Sorted(ready) && Items(w) !! Items(ready) && Contains(ready, t)
    requires forall x :: x in Items(w) ==> base(x) <= p
    ensures NotOvertaken(ready, WakeInto(w, ready, wake, base), t, p)
  {
    NoItems<T>();
    hide Items, Sorted, Distinct, Insert, IndexOf, PrioOf, Contains;
    if w != [] {
      var v, e := w[..|w| - 1], w[|w| - 1];
      assert w == v + [e];
      Snoc(v, e);
      WakeIntoNotOvertaken(v, ready, wake, base, t, p);
      WakeIntoFacts(v, ready, wake, base);
      var r := WakeInto(v, ready, wake, base);
      if e.item in wake {
        InsertBehindOld(r, base(e.item) + 1, e.item, t, p);
      }
    }
  }

  lemma {:induction false} DrainNotOvertaken(nq: Queue<Tid>, rq: Queue<Tid>, t: Tid, p: int)
    requires Distinct(nq) && Distinct(rq) && Sorted(rq) && Items(nq) !! Items(rq) && Contains(rq, t)
    requires PRIO_STD <= p + 1
    ensures NotOvertaken(rq, DrainInto(nq, rq, false), t, p)
    decreases |nq|
  {
    NoItems<Tid>();
    hide Items, Sorted, Distinct, Insert, IndexOf, PrioOf, Contains;
    if nq != [] {
      var v, e := nq[..|nq| - 1], nq[|nq| - 1];
      assert nq == v + [e];
      Snoc(v, e);
      InsertItems(rq, PRIO_STD, e.item);
      InsertSorted(rq, PRIO_STD, e.item);
      InsertBehindOld(rq, PRIO_STD, e.item, t, p);
      DrainNotOvertaken(v, Insert(rq, PRIO_STD, e.item), t, p);
    }
  }

  // ---- over runs

  /** Every base priority is at most p. */
  ghost predicate Low(s: State, p: int) {
    forall x :: x in s.tcbs ==> s.tcbs[x].prio <= p
  }

  /** The steps under which the bound is claimed: nobody favours a ready thread, new threads are
      not favoured, and t is not suspended, cancelled or aborted. */
  ghost predicate Quiet(s: State, step: Step, t: Tid, p: int) {
    match step
    case SpawnStep(_, c) => c.prio <= p
    case FavourStep(x) => x in s.tcbs ==> s.tcbs[x].state != Ready
    case SuspendStep(x) => x != t
    case CancelStep(x) => x != t
    case AbortStep(x) => x != t
    case RoundStep(_, _) => s.favourNew ==> s.nq == []
    case _ => true
  }

  lemma QueueOrder(s: State, n: QueueName)
    requires Inv(s)
    ensures Sorted(s.Get(n)) && Distinct(s.Get(n))
  {
  }

  lemma SuspendFair(s: State, x: Tid, t: Tid, p: int)
    requires Inv(s) && Contains(s.rq, t) && x in s.tcbs && x != t
    ensures NotOvertaken(s.rq, Suspend(s, x).0.rq, t, p)
  {
    hide Inv, Insert, Delete, Contains, IndexOf, Distinct, Sorted;
    QueueOrder(s, RQ);
    if s.tcbs[x].state == Ready && Contains(s.rq, x) {
      DeleteOther(s.rq, x, t, p);
    }
  }

  lemma ResumeFair(s: State, x: Tid, t: Tid, p: int)
    requires Inv(s) && Contains(s.rq, t) && x in s.tcbs && PRIO_STD <= p + 1
    requires Contains(s.sq, x) ==> QueueOf(s.tcbs[x].state).Some?
    ensures NotOvertaken(s.rq, Resume(s, x).0.rq, t, p)
  {
    hide Inv, Insert, Delete, Contains, IndexOf, Distinct, Sorted;
    QueueOrder(s, RQ);
    Whereabouts(s, x);
    if Contains(s.sq, x) && s.tcbs[x].state == Ready {
      assert In(s, SQ, x) && !In(s, RQ, x);
      InsertBehindOld(s.rq, PRIO_STD, x, t, p);
    }
  }

  lemma CancelFair(s: State, x: Tid, t: Tid, p: int)
    requires Inv(s) && Contains(s.rq, t) && x in s.tcbs && x != t
    ensures NotOvertaken(s.rq, Cancel(s, x).0.rq, t, p)
  {
    hide Inv, Insert, Delete, Contains, IndexOf, Distinct, Sorted;
    QueueOrder(s, RQ);
    if s.tcbs[x].state == Ready && Contains(s.rq, x) {
      DeleteOther(s.rq, x, t, p);
    }
  }

  lemma AbortFair(s: State, x: Tid, t: Tid, p: int)
    requires Inv(s) && Contains(s.rq, t) && x in s.tcbs && x != t && JoinSafe(s, Some(x))
    ensures NotOvertaken(s.rq, Abort(s, x).0.rq, t, p)
  {
    hide Contains, IndexOf, Inv, Cancel, Delete;
    if s.tcbs[x].state != Dead {
      var c := s.tcbs[x].(joinable := false, cancelEnabled := true, cancelAsync := true);
      TweakKeeps(s, x, c);
      CancelFair(s.SetTcb(x, c), x, t, p);
    } else if s.current != Some(x) && !s.tcbs[x].joinable {
      var c := s.tcbs[x].(joinable := false, cancelEnabled := true, cancelAsync := true);
      assert Cancel(s.SetTcb(x, c), x).0.rq == s.rq by {
        DeadNotCancelled(s.SetTcb(x, s.tcbs[x].(joinable := false, cancelEnabled := true, cancelAsync := true)), x);
      }
    }
  }

  lemma DeadNotCancelled(s: State, x: Tid)
    requires x in s.tcbs && s.tcbs[x].state == Dead
    ensures Cancel(s, x).0 == s
  {
  }

  /** No permitted call of the running thread puts anybody in front of a thread that is above
      all newcomers. */
  lemma CallsFair(s: State, step: Step, t: Tid, p: int)
    requires Inv(s) && s.current.Some? && Contains(s.rq, t) && PRIO_STD <= p + 1
    requires Quiet(s, step, t, p) && !step.RoundStep? && Exec(s, step).Next?
    ensures NotOvertaken(s.rq, Exec(s, step).state.rq, t, p)
  {
    hide Inv, Contains, IndexOf, Insert, Delete, Favorite, Suspend, Resume, Cancel, Abort, JoinSafe, Reap;
    match step {
      case SuspendStep(x) => SuspendFair(s, x, t, p);
      case ResumeStep(x) => ResumeFair(s, x, t, p);
      case CancelStep(x) => CancelFair(s, x, t, p);
      case AbortStep(x) => AbortFair(s, x, t, p);
      case JoinStep(tid, _) => JoinFair(s, tid);
      case _ =>
    }
  }

  lemma JoinFair(s: State, tid: Option<Tid>)
    requires JoinSafe(s, tid)
    ensures AfterJoin(s, JoinBegin(s, tid)).rq == s.rq && AfterJoin(s, JoinEnd(s, tid)).rq == s.rq
  {
    hide Contains, Delete;
  }

  lemma CallsLow(s: State, step: Step, t: Tid, p: int)
    requires Low(s, p) && Quiet(s, step, t, p) && !step.RoundStep? && Exec(s, step).Next?
    ensures Low(Exec(s, step).state, p)
  {
    hide Contains, Insert, Delete, Favorite, IndexOf, Round, JoinSafe;
    match step {
      case JoinStep(tid, _) => JoinLow(s, tid);
      case AbortStep(x) => AbortLow(s, x, p);
      case CancelStep(x) => CancelLow(s, x, p);
      case _ =>
    }
  }

  lemma JoinLow(s: State, tid: Option<Tid>)
    requires JoinSafe(s, tid)
    ensures forall x :: x in AfterJoin(s, JoinBegin(s, tid)).tcbs ==>
              x in s.tcbs && AfterJoin(s, JoinBegin(s, tid)).tcbs[x] == s.tcbs[x]
    ensures forall x :: x in AfterJoin(s, JoinEnd(s, tid)).tcbs ==>
              x in s.tcbs && AfterJoin(s, JoinEnd(s, tid)).tcbs[x] == s.tcbs[x]
  {
    hide Contains, Delete;
  }

  lemma CancelLow(s: State, x: Tid, p: int)
    requires Low(s, p) && x in s.tcbs
    ensures Low(Cancel(s, x).0, p)
  {
    hide Contains, Delete, Insert;
  }

  lemma AbortLow(s: State, x: Tid, p: int)
    requires Low(s, p) && x in s.tcbs && JoinSafe(s, Some(x))
    ensures Low(Abort(s, x).0, p)
  {
    hide Contains, Cancel, Reap, JoinSafe;
    JoinLow(s, Some(x));
    var s1 := s.SetTcb(x, s.tcbs[x].(joinable := false, cancelEnabled := true, cancelAsync := true));
    CancelLow(s1, x, p);
  }

  lemma ReturnFair(s: State, l: Leave, t: Tid, p: int)
    requires Inv(s) && s.current.Some? && Contains(s.rq, t) && Low(s, p)
    ensures Contains(Increase(s.rq), t)
    ensures NotOvertaken(Increase(s.rq), Return(s, l).rq, t, p)
    ensures Low(Return(s, l), p) && Return(s, l).tcbs.Keys <= s.tcbs.Keys
    ensures Return(s, l).nq == s.nq && Return(s, l).favourNew == s.favourNew
  {
    hide Items, Sorted, Distinct, Insert, Contains, IndexOf, Increase, Reset, Placed, Covered;
    QueueOrder(s, RQ);
    Older(s.rq, t);
    if l.Yields? {
      var c := s.current.value;
      Whereabouts(s, c);
      assert !In(s, RQ, c);
      IncreaseFacts(s.rq);
      InsertBehindOld(Increase(s.rq), s.tcbs[c].prio, c, t, p);
    }
  }

  lemma EventPassFair(s: State, polled: set<nat>, late: map<nat, Status>, t: Tid, p: int)
    requires Inv(s) && WaitersLive(s) && Contains(s.rq, t) && Low(s, p)
    ensures var s' := EventPass(s, polled, late);
            && NotOvertaken(s.rq, s'.rq, t, p) && Low(s', p)
            && s'.tcbs.Keys == s.tcbs.Keys && s'.nq == s.nq && s'.favourNew == s.favourNew
  {
    hide Items, Sorted, Distinct, Contains, IndexOf, WakeInto, Keep, Woken, Polled, Covered;
    QueueOrder(s, WQ);
    QueueOrder(s, RQ);
    QueuesDisjoint(s, WQ, RQ);
    forall x | x in Items(s.wq)
      ensures Base(s)(x) <= p
    {
      assert In(s, WQ, x);
    }
    WakeIntoNotOvertaken(s.wq, s.rq, Woken(s, Polled(s, polled, late).1), Base(s), t, p);
  }

  lemma {:induction false} PassesFair(s: State, ps: seq<Pass>, t: Tid, p: int)
    requires Inv(s) && Contains(s.rq, t) && Low(s, p) && Passes(s, ps).Next?
    ensures var s' := Passes(s, ps).state;
            && NotOvertaken(s.rq, s'.rq, t, p) && Low(s', p)
            && s'.tcbs.Keys == s.tcbs.Keys && s'.nq == s.nq && s'.favourNew == s.favourNew
    decreases |ps|
  {
    hide Inv, EventPass, WaitersLive, Contains, IndexOf, Low;
    if ps != [] {
      var s1 := EventPass(s, ps[0].polled, ps[0].late);
      WaitersAreLive(s);
      EventPassKeeps(s, ps[0].polled, ps[0].late);
      EventPassFair(s, ps[0].polled, ps[0].late, t, p);
      PassesFair(s1, ps[1..], t, p);
    }
  }

  lemma DrainFair(s: State, t: Tid, p: int)
    requires Inv(s) && Contains(s.rq, t) && Low(s, p) && PRIO_STD <= p + 1
    requires s.favourNew ==> s.nq == []
    ensures NotOvertaken(s.rq, Drain(s).rq, t, p) && Low(Drain(s), p)
  {
    hide Items, Sorted, Distinct, Contains, IndexOf, Covered;
    if s.nq != [] {
      QueueOrder(s, NQ);
      QueueOrder(s, RQ);
      QueuesDisjoint(s, NQ, RQ);
      DrainNotOvertaken(s.nq, s.rq, t, p);
    }
  }

  /** Taking the head off either serves t or brings it one place nearer. */
  lemma HeadOff<T>(q: Queue<T>, t: T)
    requires Distinct(q) && Contains(q, t)
    ensures q[0].item == t ||
            (Contains(q[1..], t) && IndexOf(q[1..], t) == IndexOf(q, t) - 1 && PrioOf(q[1..], t) == PrioOf(q, t))
  {
    var k := IndexOf(q, t);
    if k > 0 {
      assert q[1..][k - 1] == q[k];
      AtIndex(q[1..], t, k - 1);
    }
  }

  lemma ReadyFew(s: State)
    requires Inv(s)
    ensures |s.rq| <= |s.tcbs|
  {
    hide Items, Sorted, Distinct;
    QueueOrder(s, RQ);
    CountItems(s.Get(RQ));
    assert forall t :: t in Items(s.rq) ==> In(s, RQ, t);
    Subset(Items(s.rq), s.tcbs.Keys);
  }

  lemma Subset(a: set<Tid>, b: set<Tid>)
    requires a <= b
    ensures |a| <= |b|
  {
    assert b == a + (b - a);
  }

  /** One turn of the scheduler serves t or brings it strictly nearer. */
  lemma RoundFair(s: State, l: Leave, ps: seq<Pass>, t: Tid, p: int, n: nat)
    requires Inv(s) && s.current.Some? && s.current.value in s.tcbs
    requires Contains(s.rq, t) && Low(s, p) && PRIO_STD <= p + 1
    requires s.favourNew ==> s.nq == []
    requires |s.tcbs| <= n + 1 && Round(s, l, ps).Next?
    ensures var s' := Round(s, l, ps).state;
            && Low(s', p)
            && (s'.current == Some(t) ||
                (Contains(s'.rq, t) && Distance(s'.rq, t, p, n) < Distance(s.rq, t, p, n)))
  {
    hide Inv, Return, Passes, Drain, Contains, IndexOf, Distinct, Increase;
    var s1 := Return(s, l);
    ReturnKeeps(s, l);
    ReturnFair(s, l, t, p);
    PassesKeep(s1, ps);
    PassesFair(s1, ps, t, p);
    var s2 := Passes(s1, ps).state;
    DrainKeeps(s2);
    DrainFair(s2, t, p);
    var s3 := Drain(s2);
    QueueOrder(s, RQ);
    QueueOrder(s3, RQ);
    Older(s.rq, t);
    ReadyFew(s3);
    Subset(s3.tcbs.Keys, s.tcbs.Keys);
    HeadOff(s3.rq, t);
  }

  function Rounds(steps: seq<Step>): nat {
    if steps == [] then 0 else (if steps[0].RoundStep? then 1 else 0) + Rounds(steps[1..])
  }

  /** Some turn of the run gives the processor to t. */
  ghost predicate Served(s: State, steps: seq<Step>, t: Tid)
    decreases |steps|
  {
    steps != [] && Exec(s, steps[0]).Next? &&
    var s' := Exec(s, steps[0]).state;
    (steps[0].RoundStep? && s'.current == Some(t)) || Served(s', steps[1..], t)
  }

  /** A run of permitted steps, at least until t is served, with at most n live threads
      besides the running one. */
  ghost predicate QuietRun(s: State, steps: seq<Step>, t: Tid, p: int, n: nat)
    decreases |steps|
  {
    && |s.tcbs| <= n + 1
    && (steps != [] ==>
          && Quiet(s, steps[0], t, p) && Exec(s, steps[0]).Next?
          && var s' := Exec(s, steps[0]).state;
             (steps[0].RoundStep? && s'.current == Some(t)) || QuietRun(s', steps[1..], t, p, n))
  }

  lemma NotOvertakenNearer<T>(q: Queue<T>, q': Queue<T>, t: T, p: int, n: nat)
    requires NotOvertaken(q, q', t, p)
    ensures Distance(q', t, p, n) <= Distance(q, t, p, n)
  {
  }

  lemma DistancePositive<T>(q: Queue<T>, t: T, p: int, n: nat)
    requires Contains(q, t)
    ensures Distance(q, t, p, n) >= 1
  {
  }

  lemma {:induction false} ServedWithinDistance(s: State, steps: seq<Step>, t: Tid, p: int, n: nat)
    requires Inv(s) && s.current.Some? && Contains(s.rq, t) && Low(s, p) && PRIO_STD <= p + 1
    requires QuietRun(s, steps, t, p, n) && Rounds(steps) >= Distance(s.rq, t, p, n)
    ensures Served(s, steps, t)
    decreases |steps|
  {
    hide Inv, Exec, Low, Contains, Distance, Quiet;
    DistancePositive(s.rq, t, p, n);
    var step := steps[0];
    StepKeeps(s, step);
    var s' := Exec(s, step).state;
    if step.RoundStep? {
      RoundStepFair(s, step, t, p, n);
      if s'.current != Some(t) {
        ServedWithinDistance(s', steps[1..], t, p, n);
      }
    } else {
      CallsFair(s, step, t, p);
      CallsLow(s, step, t, p);
      NotOvertakenNearer(s.rq, s'.rq, t, p, n);
      ServedWithinDistance(s', steps[1..], t, p, n);
    }
  }

  lemma RoundStepFair(s: State, step: Step, t: Tid, p: int, n: nat)
    requires Inv(s) && s.current.Some? && Contains(s.rq, t) && Low(s, p) && PRIO_STD <= p + 1
    requires Quiet(s, step, t, p) && step.RoundStep? && |s.tcbs| <= n + 1 && Exec(s, step).Next?
    ensures var s' := Exec(s, step).state;
            && Low(s', p)
            && (s'.current == Some(t) ||
                (Contains(s'.rq, t) && Distance(s'.rq, t, p, n) < Distance(s.rq, t, p, n)))
  {
    assert s.current.value in s.tcbs;
    hide Inv, Contains, Low, Distance, Round;
    RoundFair(s, step.leave, step.passes, t, p, n);
  }

  function Max(a: int, b: int): int {
    if a >= b then a else b
  }

  /** Bounded waiting.  If every base priority is at most p and there are never more than n live
      threads, a thread ready at priority q runs within max(0, p + 1 - q) + n - 1 turns. */
  lemma BoundedWait(s: State, steps: seq<Step>, t: Tid, p: int, n: nat)
    requires Inv(s) && s.current.Some? && Contains(s.rq, t)
    requires Low(s, p) && PRIO_STD <= p + 1 && n >= 1
    requires QuietRun(s, steps, t, p, n - 1)
    requires Rounds(steps) >= Max(0, p + 1 - PrioOf(s.rq, t)) + n - 1
    ensures Served(s, steps, t)
  {
    hide Inv, Served, Low, Contains, Rounds;
    ThreadCountExact(s);
    ServedWithinDistance(s, steps, t, p, n - 1);
  }
}
