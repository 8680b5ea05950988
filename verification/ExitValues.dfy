/** The value with which a thread ends is the value that its joiner gets (libports/pth-2.0.7/pth_lib.c and
    pth_cancel.c). */
module ExitValues {
  import opened Wrappers
  import opened PthTypes
  import opened PrioritySequence
  import EM = EventManager
  import opened Scheduler
  import opened SchedulerInvariant
  import opened SchedulerRuns
  import opened JoinWaits
  import opened SchedulerPromises

  /** Whoever joins t now, having waited or not, gets this value, and t is gone. */
  ghost predicate JoinsWith(s: State, t: Tid, value: int) {
    && JoinSafe(s, Some(t)) && JoinBegin(s, Some(t)) == JoinEnd(s, Some(t))
    && JoinEnd(s, Some(t)).Joined? && JoinEnd(s, Some(t)).value == value && t !in JoinEnd(s, Some(t)).state.tcbs
  }

  /** A dead thread that nobody takes keeps its value for whoever joins it. */
  lemma ValueKept(s: State, steps: seq<Step>, t: Tid, c: Tcb)
    requires Inv(s) && s.current.Some? && Lies(s, t, c) && Unreaped(s, steps, t) && Run(s, steps).Next?
    ensures JoinsWith(Run(s, steps).state, t, c.joinArg)
  {
    hide Inv, Run, Lies, Unreaped, JoinEnd, JoinBegin, JoinSafe;
    NamedJoinCompletes(s, steps, t, c);
    RunsKeep(s, steps);
    Readily(Run(s, steps).state, t);
  }

  /** A join that would succeed after its wait needs none. */
  lemma Readily(s: State, t: Tid)
    requires Inv(s) && s.current.Some? && JoinSafe(s, Some(t)) && JoinEnd(s, Some(t)).Joined?
    ensures JoinBegin(s, Some(t)) == JoinEnd(s, Some(t))
  {
    hide Ordered, Placed, Covered, Contains, Reap, In;
    JoinTakes(s, Some(t));
    NotCurrent(s, DQ, t);
    assert s.tcbs[t].joinable;
    JoinMeaning(s, Some(t));
    TwoKeys(s.tcbs.Keys, t, s.current.value);
  }

  /** A thread that has one entry is in that queue. */
  lemma EntryIn(s: State, t: Tid, n: QueueName, prio: int)
    requires OnlyEntry(s, t, n, prio)
    ensures In(s, n, t)
  {
    hide In, Holds;
    assert Holds(s, n, Entry(t, prio));
    HoldsIn(s, n, Entry(t, prio));
  }

  /** The turn in which thread t gives up control with its value leaves it dead with that value. */
  lemma ExitLies(s: State, v: int, ps: seq<Pass>)
    requires Inv(s) && s.current.Some? && s.current.value in s.tcbs && s.tcbs[s.current.value].joinable
    requires Round(s, Exits(v), ps).Next?
    ensures var t := s.current.value;
            Lies(Round(s, Exits(v), ps).state, t, s.tcbs[t].(state := Dead, joinArg := v))
  {
    hide Inv, Lies, Return, Passes, Dispatch;
    var t, s1 := s.current.value, Return(s, Exits(v));
    var c := s.tcbs[t].(state := Dead, joinArg := v);
    ReturnMeaning(s, Exits(v));
    ReturnKeeps(s, Exits(v));
    EntryIn(s1, t, DQ, PRIO_STD);
    assert Lies(s1, t, c) by { LiesThere(s1, t, c); }
    PassesLie(s1, ps, t, c);
    PassesKeep(s1, ps);
    DispatchLies(Passes(s1, ps).state, t, c);
  }

  lemma LiesThere(s: State, t: Tid, c: Tcb)
    requires In(s, DQ, t) && t in s.tcbs && s.tcbs[t] == c
    ensures Lies(s, t, c)
  {
  }

  /** pth_exit and pth_join: a joinable thread that exits with v is joined with v, however long after,
      unless somebody else has taken it on the way. */
  lemma ExitValueArrives(s: State, v: int, ps: seq<Pass>, steps: seq<Step>)
    requires Inv(s) && s.current.Some? && s.current.value in s.tcbs && s.tcbs[s.current.value].joinable
    requires var o := Exec(s, RoundStep(Exits(v), ps));
             o.Next? && Unreaped(o.state, steps, s.current.value) && Run(o.state, steps).Next?
    ensures JoinsWith(Run(Exec(s, RoundStep(Exits(v), ps)).state, steps).state, s.current.value, v)
  {
    hide Inv, Run, Unreaped, Lies, Round, JoinsWith;
    ExitLies(s, v, ps);
    RoundKeeps(s, Exits(v), ps);
    var t, s1 := s.current.value, Round(s, Exits(v), ps).state;
    ValueKept(s1, steps, t, s.tcbs[t].(state := Dead, joinArg := v));
  }

  lemma {:induction false} PassesKeys(s: State, ps: seq<Pass>)
    requires Inv(s) && Passes(s, ps).Next?
    ensures Passes(s, ps).state.tcbs.Keys == s.tcbs.Keys
    decreases |ps|
  {
    hide Inv, EventPass, WaitersLive, In, Holds;
    if ps != [] {
      PassMeaning(s, ps[0].polled, ps[0].late);
      EventPassKeeps(s, ps[0].polled, ps[0].late);
      PassesKeys(EventPass(s, ps[0].polled, ps[0].late), ps[1..]);
    }
  }

  /** A detached thread that exits is gone after the turn. */
  lemma DetachedVanishes(s: State, v: int, ps: seq<Pass>)
    requires Inv(s) && s.current.Some? && s.current.value in s.tcbs && !s.tcbs[s.current.value].joinable
    requires Exec(s, RoundStep(Exits(v), ps)).Next?
    ensures s.current.value !in Exec(s, RoundStep(Exits(v), ps)).state.tcbs
  {
    hide Inv, Return, Passes, Dispatch, OthersAged;
    var s1 := Return(s, Exits(v));
    ReturnMeaning(s, Exits(v));
    ReturnKeeps(s, Exits(v));
    PassesKeep(s1, ps);
    PassesKeys(s1, ps);
    DispatchKeeps(Passes(s1, ps).state);
  }

  /** A joinable thread that is cancelled at once is joined with the value CANCELED, a detached one is
      gone. */
  lemma CancelValueArrives(s: State, t: Tid, steps: seq<Step>)
    requires Inv(s) && s.current.Some? && s.current.value in s.tcbs && t in s.tcbs && s.current != Some(t)
    requires s.tcbs[t].state != Dead && Asynchronous(s.tcbs[t]) && !In(s, SQ, t)
    requires var o := Exec(s, CancelStep(t)); o.Next? && Unreaped(o.state, steps, t) && Run(o.state, steps).Next?
    ensures var s1 := Exec(s, CancelStep(t)).state;
            if s.tcbs[t].joinable then JoinsWith(Run(s1, steps).state, t, CANCELED) else t !in s1.tcbs
  {
    hide Inv, Run, Unreaped, Lies, JoinsWith, Cancel, In, Holds;
    var s1 := Cancel(s, t).0;
    CancelMeaning(s, t);
    CancelKeeps(s, t);
    if s.tcbs[t].joinable {
      EntryIn(s1, t, DQ, PRIO_STD);
      assert Lies(s1, t, s1.tcbs[t]) by { LiesThere(s1, t, s1.tcbs[t]); }
      ValueKept(s1, steps, t, s1.tcbs[t]);
    }
  }
}
