/** Whole runs of the scheduler: any sequence of library calls and scheduler turns,
    from the state that pth_init leaves behind. */
module SchedulerRuns {
  import opened Wrappers
  import opened PthTypes
  import opened PrioritySequence
  import EM = EventManager
  import opened Scheduler
  import opened SchedulerInvariant

  /** What happened outside during one pass of the event manager. */
  datatype Pass = Pass(polled: set<nat>, late: map<nat, Status>)

  datatype Step =
    | SpawnStep(t: Tid, c: Tcb)
    | FavourStep(t: Tid)
    | SuspendStep(t: Tid)
    | ResumeStep(t: Tid)
    | CancelStep(t: Tid)
    | AbortStep(t: Tid)
    | JoinStep(tid: Option<Tid>, waited: bool)
    | CancelPointStep
    | CancelStateStep(enabled: bool, async: bool)
    | FavourNewStep(favour: bool)
    | SyncStep(env: EM.Env)
    | RoundStep(leave: Leave, passes: seq<Pass>)

  /** Broken is what must not happen: a queue that is not there, or a thread
      missing from the queue it is taken from. */
  datatype Outcome = Next(state: State) | Disabled | Aborted | Broken

  /** The event manager runs once, and again while a function event asks for it. */
  ghost function Passes(s: State, ps: seq<Pass>): Outcome
    decreases |ps|
  {
    if ps == [] then Next(s)
    else if !WaitersLive(s) then Broken
    else Passes(EventPass(s, ps[0].polled, ps[0].late), ps[1..])
  }

  /** One turn of the scheduler loop, from one running thread to the next. */
  ghost function Round(s: State, l: Leave, ps: seq<Pass>): Outcome
    requires s.current.Some? && s.current.value in s.tcbs
  {
    match Passes(Return(s, l), ps)
    case Next(s2) => (match Dispatch(s2) case Some(s3) => Next(s3) case None => Aborted)
    case o => o
  }

  function AfterJoin(s: State, j: Join): State {
    if j.Joined? then j.state else s
  }

  ghost function Exec(s: State, step: Step): Outcome {
    if s.current == None then Disabled
    else if s.current.value !in s.tcbs then Broken
    else
      match step
      case SpawnStep(t, c) => if t in s.tcbs then Disabled else Next(Spawn(s, t, c))
      case FavourStep(t) => if t !in s.tcbs then Disabled else Next(Favour(s, t).0)
      case SuspendStep(t) => if t !in s.tcbs then Disabled else Next(Suspend(s, t).0)
      case ResumeStep(t) =>
        if t !in s.tcbs then Disabled
        else if Contains(s.sq, t) && QueueOf(s.tcbs[t].state) == None then Broken
        else Next(Resume(s, t).0)
      case CancelStep(t) => if t !in s.tcbs then Disabled else Next(Cancel(s, t).0)
      case AbortStep(t) =>
        if t !in s.tcbs then Disabled else if !JoinSafe(s, Some(t)) then Broken else Next(Abort(s, t).0)
      case JoinStep(tid, waited) =>
        if tid.Some? && tid.value !in s.tcbs then Disabled
        else if !JoinSafe(s, tid) then Broken
        else Next(AfterJoin(s, if waited then JoinEnd(s, tid) else JoinBegin(s, tid)))
      case CancelPointStep => Next(CancelPoint(s).0)
      case CancelStateStep(e, a) =>
        Next(s.SetTcb(s.current.value, s.tcbs[s.current.value].(cancelEnabled := e, cancelAsync := a)))
      case FavourNewStep(f) => Next(s.(favourNew := f))
      case SyncStep(env) => Next(s.(env := env))
      case RoundStep(l, ps) => Round(s, l, ps)
  }

  ghost function Run(s: State, steps: seq<Step>): Outcome
    decreases |steps|
  {
    if steps == [] then Next(s) else
      match Exec(s, steps[0])
      case Next(s') => Run(s', steps[1..])
      case o => o
  }

  lemma {:induction false} PassesKeep(s: State, ps: seq<Pass>)
    requires Inv(s)
    ensures var o := Passes(s, ps); o.Next? && Inv(o.state) && o.state.current == s.current
    decreases |ps|
  {
    hide Inv, EventPass, WaitersLive;
    if ps != [] {
      WaitersAreLive(s);
      EventPassKeeps(s, ps[0].polled, ps[0].late);
      PassesKeep(EventPass(s, ps[0].polled, ps[0].late), ps[1..]);
    }
  }

  lemma RoundKeeps(s: State, l: Leave, ps: seq<Pass>)
    requires Inv(s) && s.current.Some?
    ensures var o := Round(s, l, ps);
            o != Broken && o != Disabled && (o.Next? ==> Inv(o.state) && o.state.current.Some?)
  {
    assert s.current.value in s.tcbs;
    hide Inv, Return, Dispatch, Passes;
    ReturnKeeps(s, l);
    PassesKeep(Return(s, l), ps);
    DispatchKeeps(Passes(Return(s, l), ps).state);
  }

  lemma EnvKeeps(s: State, env: EM.Env, f: bool)
    requires Inv(s)
    ensures Inv(s.(env := env)) && Inv(s.(favourNew := f))
  {
    hide Items, Sorted, Distinct;
    forall s' | s' == s.(env := env) || s' == s.(favourNew := f)
      ensures Inv(s')
    {
      assert forall n :: s'.Get(n) == s.Get(n);
      SameItems(s, s');
    }
  }

  /** What a step has to keep. */
  ghost predicate Kept(o: Outcome) {
    o != Broken && (o.Next? ==> Inv(o.state) && o.state.current.Some?)
  }

  ghost predicate Runs(s: State) {
    Inv(s) && s.current.Some? && s.current.value in s.tcbs
  }

  lemma RunningLives(s: State)
    requires Inv(s) && s.current.Some?
    ensures Runs(s)
  {
    hide Ordered, Placed, Covered;
  }

  lemma SpawnStepKeeps(s: State, t: Tid, c: Tcb)
    requires Runs(s)
    ensures Kept(Exec(s, SpawnStep(t, c)))
  {
    hide Inv, Spawn;
    StillRunning(s, SpawnStep(t, c));
    if t !in s.tcbs {
      SpawnKeeps(s, t, c);
    }
  }

  lemma FavourStepKeeps(s: State, t: Tid)
    requires Runs(s)
    ensures Kept(Exec(s, FavourStep(t)))
  {
    hide Inv, Favour;
    StillRunning(s, FavourStep(t));
    if t in s.tcbs {
      FavourKeeps(s, t);
    }
  }

  lemma SuspendStepKeeps(s: State, t: Tid)
    requires Runs(s)
    ensures Kept(Exec(s, SuspendStep(t)))
  {
    hide Inv, Suspend;
    StillRunning(s, SuspendStep(t));
    if t in s.tcbs {
      SuspendKeeps(s, t);
    }
  }

  lemma ResumeStepKeeps(s: State, t: Tid)
    requires Runs(s)
    ensures Kept(Exec(s, ResumeStep(t)))
  {
    hide Inv, Resume, Contains;
    StillRunning(s, ResumeStep(t));
    if t in s.tcbs {
      if Contains(s.sq, t) {
        ResumeDefined(s, t);
      }
      ResumeKeeps(s, t);
    }
  }

  lemma CancelStepKeeps(s: State, t: Tid)
    requires Runs(s)
    ensures Kept(Exec(s, CancelStep(t)))
  {
    hide Inv, Cancel;
    StillRunning(s, CancelStep(t));
    if t in s.tcbs {
      CancelKeeps(s, t);
    }
  }

  lemma AbortStepKeeps(s: State, t: Tid)
    requires Runs(s)
    ensures Kept(Exec(s, AbortStep(t)))
  {
    hide Inv, Abort, JoinSafe;
    StillRunning(s, AbortStep(t));
    if t in s.tcbs {
      JoinIsSafe(s, Some(t));
      AbortKeeps(s, t);
    }
  }

  lemma JoinStepKeeps(s: State, tid: Option<Tid>, waited: bool)
    requires Runs(s)
    ensures Kept(Exec(s, JoinStep(tid, waited)))
  {
    hide Inv, JoinBegin, JoinEnd, JoinSafe;
    StillRunning(s, JoinStep(tid, waited));
    if tid.Some? ==> tid.value in s.tcbs {
      JoinIsSafe(s, tid);
      JoinKeeps(s, tid);
    }
  }

  lemma CancelPointKeeps(s: State)
    requires Runs(s)
    ensures Kept(Exec(s, CancelPointStep))
  {
    hide Inv;
    TweakKeeps(s, s.current.value, s.tcbs[s.current.value].(cancelReq := false));
  }

  lemma CancelStateKeeps(s: State, enabled: bool, async: bool)
    requires Runs(s)
    ensures Kept(Exec(s, CancelStateStep(enabled, async)))
  {
    hide Inv;
    TweakKeeps(s, s.current.value, s.tcbs[s.current.value].(cancelEnabled := enabled, cancelAsync := async));
  }

  lemma SettingKeeps(s: State, favour: bool, env: EM.Env)
    requires Runs(s)
    ensures Kept(Exec(s, FavourNewStep(favour))) && Kept(Exec(s, SyncStep(env)))
  {
    hide Inv;
    EnvKeeps(s, env, favour);
  }

  lemma RoundStepKeeps(s: State, l: Leave, ps: seq<Pass>)
    requires Runs(s)
    ensures Kept(Exec(s, RoundStep(l, ps)))
  {
    hide Inv, Round;
    RoundKeeps(s, l, ps);
  }

  /** Every step from a good state leads to a good state, and none breaks. */
  lemma StepKeeps(s: State, step: Step)
    requires Inv(s) && s.current.Some?
    ensures var o := Exec(s, step);
            o != Broken && (o.Next? ==> Inv(o.state) && o.state.current.Some?)
  {
    hide Inv, Exec, Runs;
    RunningLives(s);
    match step {
      case SpawnStep(t, c) => SpawnStepKeeps(s, t, c);
      case FavourStep(t) => FavourStepKeeps(s, t);
      case SuspendStep(t) => SuspendStepKeeps(s, t);
      case ResumeStep(t) => ResumeStepKeeps(s, t);
      case CancelStep(t) => CancelStepKeeps(s, t);
      case AbortStep(t) => AbortStepKeeps(s, t);
      case JoinStep(tid, waited) => JoinStepKeeps(s, tid, waited);
      case CancelPointStep => CancelPointKeeps(s);
      case CancelStateStep(e, a) => CancelStateKeeps(s, e, a);
      case FavourNewStep(f) => SettingKeeps(s, f, s.env);
      case SyncStep(env) => SettingKeeps(s, s.favourNew, env);
      case RoundStep(l, ps) => RoundStepKeeps(s, l, ps);
    }
  }

  /** No call by the running thread takes the processor away from it. */
  lemma StillRunning(s: State, step: Step)
    requires s.current.Some? && s.current.value in s.tcbs
    ensures !step.RoundStep? && Exec(s, step).Next? ==> Exec(s, step).state.current == s.current
  {
    hide Insert, Delete, Favorite, Contains, Round;
  }

  /** The state after pth_init: only the main thread, running. */
  ghost predicate Init(s: State) {
    && s.nq == [] && s.rq == [] && s.wq == [] && s.sq == [] && s.dq == []
    && s.current.Some? && s.tcbs.Keys == {s.current.value}
    && s.tcbs[s.current.value].state == Ready
  }

  lemma InitGood(s: State)
    requires Init(s)
    ensures Inv(s)
  {
    forall n
      ensures s.Get(n) == []
    {
    }
  }

  /** In every state that any run reaches, every live thread is running or in exactly one
      queue, the one its state names or the suspended one; and no run ever breaks. */
  lemma {:induction false} RunsKeep(s: State, steps: seq<Step>)
    requires Inv(s) && s.current.Some?
    ensures var o := Run(s, steps); o != Broken && (o.Next? ==> Inv(o.state) && o.state.current.Some?)
    decreases |steps|
  {
    hide Inv, Exec;
    if steps != [] {
      StepKeeps(s, steps[0]);
      if Exec(s, steps[0]).Next? {
        RunsKeep(Exec(s, steps[0]).state, steps[1..]);
      }
    }
  }

  lemma ReachableGood(s: State, steps: seq<Step>)
    requires Init(s)
    ensures var o := Run(s, steps); o != Broken && (o.Next? ==> Inv(o.state))
  {
    hide Inv, Run;
    InitGood(s);
    RunsKeep(s, steps);
  }

  /** A run on which the delay promised for the main thread does not happen: main spawns one
      thread and exits at once, and its first test lets it go although that thread has not
      even started. */
  lemma EarlyExit(s: State, t: Tid, c: Tcb)
    requires Init(s) && t !in s.tcbs
    ensures Run(s, [SpawnStep(t, c)]).Next?
    ensures var s' := Run(s, [SpawnStep(t, c)]).state;
            ExitCallback(s') && s'.current == s.current && t in s'.tcbs && s'.tcbs[t].state == New
  {
    assert Exec(s, SpawnStep(t, c)) == Next(Spawn(s, t, c));
    assert [SpawnStep(t, c)][1..] == [];
    assert Run(Spawn(s, t, c), []) == Next(Spawn(s, t, c));
  }

  /** Main runs and thread t, which can be cancelled at any time, is suspended. */
  function OneSuspended(main: Tid, t: Tid): State {
    var c := Tcb(0, Ready, true, false, true, true, 0, []);
    State(map[main := c, t := c], Some(main), [], [], [], [Entry(t, PRIO_STD)], [], true, EM.Env(map[], map[]))
  }

  /** Cancelling and aborting the suspended thread both fail and both leave their marks. */
  lemma SuspendedExample(main: Tid, t: Tid)
    requires main != t
    ensures var s := OneSuspended(main, t);
            && Inv(s)
            && Cancel(s, t).1 == Some(ESRCH) && Cancel(s, t).0.tcbs[t].cancelReq
            && JoinSafe(s, Some(t)) && Abort(s, t).1 == Some(ESRCH) && !Abort(s, t).0.tcbs[t].joinable
  {
    var s := OneSuspended(main, t);
    forall n
      ensures Sorted(s.Get(n)) && Distinct(s.Get(n)) && Items(s.Get(n)) == if n == SQ then {t} else {}
    {
      if n == SQ {
        assert s.sq[0].item == t;
      }
    }
    assert In(s, SQ, t);
    AbortKeeps(s, t);
    CancelKeeps(s, t);
  }
}
