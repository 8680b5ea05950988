/** What a whole turn of the scheduler (libports/pth-2.0.7/pth_sched.c) does for a thread that waits: from
    the thread that gives up control, through the event manager, to the thread that runs next. */
module TurnWakes {
  import opened Wrappers
  import opened PthTypes
  import opened PrioritySequence
  import EM = EventManager
  import opened Scheduler
  import opened SchedulerInvariant
  import opened SchedulerRuns
  import opened EventDelivery
  import opened EventFates
  import opened SchedulerPromises
  import opened ExitValues

  /** The thread is ready, in the ready queue or already running. */
  ghost predicate Awake(s: State, x: Tid) {
    x in s.tcbs && s.tcbs[x].state == Ready && (s.current == Some(x) || In(s, RQ, x))
  }

  lemma PassStaysReady(s: State, polled: set<nat>, late: map<nat, Status>, x: Tid)
    requires Inv(s) && WaitersLive(s) && ReadyNow(s, x)
    ensures ReadyNow(EventPass(s, polled, late), x)
  {
    hide Inv, EventPass, Holds;
    PassMeaning(s, polled, late);
    ReadyElsewhere(s, x);
    var i :| 0 <= i < |s.rq| && s.rq[i].item == x;
    HeldThere(s, s.rq[i]);
    HoldsIn(EventPass(s, polled, late), RQ, s.rq[i]);
  }

  lemma HeldThere(s: State, e: Entry<Tid>)
    requires e in s.rq
    ensures Holds(s, RQ, e)
  {
  }

  lemma ReadyElsewhere(s: State, x: Tid)
    requires Inv(s) && In(s, RQ, x)
    ensures !In(s, WQ, x)
  {
    hide Ordered, Covered, In;
    OnlyThere(s, RQ, x);
  }

  lemma {:induction false} PassesStayReady(s: State, ps: seq<Pass>, x: Tid)
    requires Inv(s) && ReadyNow(s, x) && Passes(s, ps).Next?
    ensures ReadyNow(Passes(s, ps).state, x)
    decreases |ps|
  {
    hide Inv, EventPass, WaitersLive, ReadyNow;
    if ps != [] {
      PassStaysReady(s, ps[0].polled, ps[0].late, x);
      EventPassKeeps(s, ps[0].polled, ps[0].late);
      PassesStayReady(EventPass(s, ps[0].polled, ps[0].late), ps[1..], x);
    }
  }

  lemma DispatchReady(s: State, x: Tid)
    requires Inv(s) && s.current == None && ReadyNow(s, x) && Dispatch(s).Some?
    ensures Awake(Dispatch(s).value, x)
  {
    hide Inv, Dispatch, DrainInto;
    DispatchMeaning(s);
    var r := DrainInto(s.nq, s.rq, s.favourNew);
    assert s.Get(RQ) == s.rq;
    var i :| 0 <= i < |r| && r[i].item == x;
    var s' := Dispatch(s).value;
    if i > 0 {
      assert s'.Get(RQ)[i - 1].item == x;
    }
  }

  /** Who is woken by the first pass of a turn is awake at its end. */
  lemma AwakeAtEnd(s: State, l: Leave, ps: seq<Pass>, x: Tid)
    requires Inv(s) && s.current.Some? && s.current.value in s.tcbs && ps != [] && Round(s, l, ps).Next?
    requires WaitersLive(Return(s, l)) && ReadyNow(EventPass(Return(s, l), ps[0].polled, ps[0].late), x)
    ensures Awake(Round(s, l, ps).state, x)
  {
    hide Inv, Return, EventPass, Dispatch, ReadyNow, Awake, WaitersLive;
    var s1 := Return(s, l);
    ReturnKeeps(s, l);
    EventPassKeeps(s1, ps[0].polled, ps[0].late);
    var s2 := EventPass(s1, ps[0].polled, ps[0].late);
    PassesKeep(s2, ps[1..]);
    PassesStayReady(s2, ps[1..], x);
    DispatchReady(Passes(s2, ps[1..]).state, x);
  }

  /** A thread that waits goes on waiting while another gives up control. */
  lemma WaitsThrough(s: State, l: Leave, x: Tid, k: nat)
    requires Inv(s) && s.current.Some? && s.current.value in s.tcbs && HasEvent(s, x, k)
    ensures var s1 := Return(s, l);
            && Inv(s1) && WaitersLive(s1) && HasEvent(s1, x, k) && s1.tcbs[x] == s.tcbs[x] && x != s.current.value
  {
    hide Inv, Return, WaitersLive, Holds;
    ReturnMeaning(s, l);
    ReturnKeeps(s, l);
    WaitersAreLive(Return(s, l));
    WaiterNotRunning(s, x);
    assert s.Get(WQ) == s.wq;
    var i :| 0 <= i < |s.wq| && s.wq[i].item == x;
    WaitsThere(s, s.wq[i]);
    HoldsIn(Return(s, l), WQ, s.wq[i]);
  }

  lemma WaitsThere(s: State, e: Entry<Tid>)
    requires e in s.wq
    ensures Holds(s, WQ, e)
  {
  }

  lemma WaiterNotRunning(s: State, x: Tid)
    requires Inv(s) && In(s, WQ, x)
    ensures s.current != Some(x)
  {
    hide Ordered, Covered, In;
    NotCurrent(s, WQ, x);
  }

  /** A timer, message port, mutex or function that the first pass of a turn finds due has its thread
      awake at the end of the turn. */
  lemma DueWakes(s: State, l: Leave, ps: seq<Pass>, x: Tid, k: nat)
    requires Inv(s) && s.current.Some? && s.current.value in s.tcbs && ps != [] && Round(s, l, ps).Next?
    requires HasEvent(s, x, k) && s.tcbs[x].ring[k].kind.Polled? && s.tcbs[x].ring[k].id in ps[0].polled
    ensures Awake(Round(s, l, ps).state, x)
  {
    hide Inv, Return, EventPass, Round, Awake, WaitersLive, In;
    WaitsThrough(s, l, x, k);
    PolledDecides(Return(s, l), ps[0].polled, ps[0].late, x, k);
    AwakeAtEnd(s, l, ps, x);
  }

  /** The turn in which a joinable thread exits wakes everybody who waits for its end, or for any. */
  lemma ExitWakesJoiners(s: State, v: int, ps: seq<Pass>, x: Tid, k: nat)
    requires Inv(s) && s.current.Some? && s.current.value in s.tcbs && s.tcbs[s.current.value].joinable
    requires ps != [] && Round(s, Exits(v), ps).Next?
    requires HasEvent(s, x, k) && s.tcbs[x].ring[k].kind.End?
    requires s.tcbs[x].ring[k].kind.target == None || s.tcbs[x].ring[k].kind.target == s.current
    ensures Awake(Round(s, Exits(v), ps).state, x)
  {
    hide Inv, Return, EventPass, Round, Awake, WaitersLive, In;
    var s1, t := Return(s, Exits(v)), s.current.value;
    WaitsThrough(s, Exits(v), x, k);
    ReturnMeaning(s, Exits(v));
    EntryIn(s1, t, DQ, PRIO_STD);
    NonEmpty(s1, DQ, t);
    EndDecides(s1, ps[0].polled, ps[0].late, x, k);
    AwakeAtEnd(s, Exits(v), ps, x);
  }
}
