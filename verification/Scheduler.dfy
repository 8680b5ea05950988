/** The thread state machine of Pth: pth_lib.c, pth_cancel.c, pth_event.c (pth_wait)
    and the loop of pth_sched.c, over the values of the five thread queues. */
module Scheduler {
  import opened Wrappers
  import opened PthTypes
  import opened PrioritySequence
  import EM = EventManager

  type Tid = nat

  datatype Tcb = Tcb(prio: int, state: ThreadState, joinable: bool,
                     cancelReq: bool, cancelEnabled: bool, cancelAsync: bool,
                     joinArg: int, ring: EM.Ring)

  datatype QueueName = NQ | RQ | WQ | SQ | DQ

  datatype State = State(tcbs: map<Tid, Tcb>, current: Option<Tid>,
                         nq: Queue<Tid>, rq: Queue<Tid>, wq: Queue<Tid>, sq: Queue<Tid>, dq: Queue<Tid>,
                         favourNew: bool, env: EM.Env)
  {
    function Get(n: QueueName): Queue<Tid> {
      match n case NQ => nq case RQ => rq case WQ => wq case SQ => sq case DQ => dq
    }

    function Put(n: QueueName, q: Queue<Tid>): State {
      match n
      case NQ => this.(nq := q)
      case RQ => this.(rq := q)
      case WQ => this.(wq := q)
      case SQ => this.(sq := q)
      case DQ => this.(dq := q)
    }

    function SetTcb(t: Tid, c: Tcb): State {
      this.(tcbs := tcbs[t := c])
    }
  }

  datatype Error = EINVAL | EPERM | ESRCH | EDEADLK | EIO

  const CANCELED: int := -1

  // ---- operations of the running thread

  function Spawn(s: State, t: Tid, c: Tcb): State {
    s.SetTcb(t, c.(state := New, cancelReq := false, joinArg := 0, ring := []))
     .Put(NQ, Insert(s.nq, c.prio, t))
  }

  /** The queue that a thread state names in yield, suspend, resume and cancel. */
  function QueueOf(st: ThreadState): Option<QueueName> {
    match st case New => Some(NQ) case Ready => Some(RQ) case Waiting => Some(WQ) case Dead => None
  }

  function Move(s: State, from: QueueName, to: QueueName, prio: int, t: Tid): State
    requires Contains(s.Get(from), t)
  {
    var s1 := s.Put(from, Delete(s.Get(from), t));
    s1.Put(to, Insert(s1.Get(to), prio, t))
  }

  /** The part of a directed yield before the switch. */
  function Favour(s: State, to: Tid): (State, Option<Error>)
    requires to in s.tcbs
  {
    match s.tcbs[to].state
    case New =>
      if Contains(s.nq, to) then (s.Put(NQ, Favorite(s.nq, to)), None) else (s, Some(EINVAL))
    case Ready =>
      if Contains(s.rq, to) then (s.Put(RQ, Favorite(s.rq, to)), None) else (s, Some(EINVAL))
    case _ => (s, Some(EINVAL))
  }

  function Suspend(s: State, t: Tid): (State, Option<Error>)
    requires t in s.tcbs
  {
    if s.current == Some(t) then (s, Some(EPERM)) else
    var q := QueueOf(s.tcbs[t].state);
    if q == None then (s, Some(EPERM))
    else if !Contains(s.Get(q.value), t) then (s, Some(ESRCH))
    else (Move(s, q.value, SQ, PRIO_STD, t), None)
  }

  function Resume(s: State, t: Tid): (State, Option<Error>)
    requires t in s.tcbs
    requires Contains(s.sq, t) ==> QueueOf(s.tcbs[t].state).Some?
  {
    if s.current == Some(t) then (s, Some(EPERM))
    else if !Contains(s.sq, t) then (s, Some(EPERM))
    else (Move(s, SQ, QueueOf(s.tcbs[t].state).value, PRIO_STD, t), None)
  }

  function Cancel(s: State, t: Tid): (State, Option<Error>)
    requires t in s.tcbs
  {
    if s.current == Some(t) then (s, Some(EINVAL))
    else if s.tcbs[t].state == Dead then (s, Some(EPERM))
    else
      var s1 := s.SetTcb(t, s.tcbs[t].(cancelReq := true));
      if !(s.tcbs[t].cancelEnabled && s.tcbs[t].cancelAsync) then (s1, None) else
      var q := QueueOf(s.tcbs[t].state).value;
      if !Contains(s.Get(q), t) then (s1, Some(ESRCH))
      else if s.tcbs[t].joinable then
        (Move(s1.SetTcb(t, s1.tcbs[t].(joinArg := CANCELED, state := Dead)), q, DQ, PRIO_STD, t), None)
      else
        var s2 := s1.Put(q, Delete(s.Get(q), t));
        (s2.(tcbs := s2.tcbs - {t}), None)
  }

  function ThreadCount(s: State): nat {
    |s.nq| + |s.rq| + 1 + |s.wq| + |s.sq| + |s.dq|
  }

  /** pth_exit_cb: the test for whether the main thread may end the process. */
  predicate ExitCallback(s: State) {
    |s.nq| + |s.rq| + |s.wq| + |s.sq| == 1
  }

  function Reap(s: State, t: Tid): State
    requires Contains(s.dq, t)
  {
    var s1 := s.Put(DQ, Delete(s.dq, t));
    s1.(tcbs := s1.tcbs - {t})
  }

  datatype Join = Refused(error: Error) | MustWait | Joined(state: State, value: int)

  /** The thread a join is about: the one named, or the first dead one. */
  function JoinTarget(s: State, tid: Option<Tid>): Option<Tid> {
    if tid == None && s.dq != [] then Some(s.dq[0].item) else tid
  }

  /** A join may take its target out of the dead queue only if it is there. */
  predicate JoinSafe(s: State, tid: Option<Tid>) {
    var t := JoinTarget(s, tid);
    && (tid.Some? ==> tid.value in s.tcbs)
    && (t.Some? ==> t.value in s.tcbs && (s.tcbs[t.value].state == Dead ==> Contains(s.dq, t.value)))
  }

  /** pth_join up to its wait, or to its end when the thread is already dead. */
  function JoinBegin(s: State, tid: Option<Tid>): Join
    requires JoinSafe(s, tid)
  {
    if tid.Some? && s.current == tid then Refused(EDEADLK)
    else if tid.Some? && !s.tcbs[tid.value].joinable then Refused(EINVAL)
    else if ThreadCount(s) == 1 then Refused(EDEADLK)
    else
      var t := JoinTarget(s, tid);
      if t == None || s.tcbs[t.value].state != Dead then MustWait
      else Joined(Reap(s, t.value), s.tcbs[t.value].joinArg)
  }

  /** The rest of pth_join after its wait. */
  function JoinEnd(s: State, tid: Option<Tid>): Join
    requires JoinSafe(s, tid)
  {
    var t := JoinTarget(s, tid);
    if t == None || s.tcbs[t.value].state != Dead then Refused(EIO)
    else Joined(Reap(s, t.value), s.tcbs[t.value].joinArg)
  }

  /** pth_abort: join a dead thread, else detach it and cancel it asynchronously. */
  function Abort(s: State, t: Tid): (State, Option<Error>)
    requires t in s.tcbs && JoinSafe(s, Some(t))
  {
    if s.current == Some(t) then (s, Some(EINVAL))
    else if s.tcbs[t].state == Dead && s.tcbs[t].joinable then
      match JoinBegin(s, Some(t))
      case Joined(s', _) => (s', None)
      case Refused(e) => (s, Some(e))
      case MustWait => (s, Some(EIO))
    else
      Cancel(s.SetTcb(t, s.tcbs[t].(joinable := false, cancelEnabled := true, cancelAsync := true)), t)
  }

  /** pth_cancel_point: whether the running thread now has to exit. */
  function CancelPoint(s: State): (State, bool)
    requires s.current.Some? && s.current.value in s.tcbs
  {
    var t := s.current.value;
    if s.tcbs[t].cancelReq && s.tcbs[t].cancelEnabled
    then (s.SetTcb(t, s.tcbs[t].(cancelReq := false)), true)
    else (s, false)
  }

  // ---- the scheduler loop

  /** How the running thread gives up control. */
  datatype Leave = Yields | Waits(ring: EM.Ring) | Exits(value: int)

  function Reset(ring: EM.Ring): (r: EM.Ring)
    ensures |r| == |ring| && forall i :: 0 <= i < |r| ==> r[i] == ring[i].(status := Pending)
  {
    seq(|ring|, i requires 0 <= i < |ring| => ring[i].(status := Pending))
  }

  /** pth_yield, pth_wait or pth_exit up to the switch, and what the scheduler does
      with the thread that came back. */
  function Return(s: State, l: Leave): State
    requires s.current.Some? && s.current.value in s.tcbs
  {
    var t, c := s.current.value, s.tcbs[s.current.value];
    var s0 := s.(current := None);
    match l
    case Exits(v) =>
      var s1 := if c.joinable
                then s0.SetTcb(t, c.(state := Dead, joinArg := v)).Put(DQ, Insert(s.dq, PRIO_STD, t))
                else s0.(tcbs := s0.tcbs - {t});
      s1.Put(RQ, Increase(s.rq))
    case Waits(ring) =>
      s0.SetTcb(t, c.(state := Waiting, ring := Reset(ring))).Put(WQ, Insert(s.wq, c.prio, t)).Put(RQ, Increase(s.rq))
    case Yields =>
      s0.Put(RQ, Insert(Increase(s.rq), c.prio, t))
  }

  ghost predicate WaitersLive(s: State) {
    forall i :: 0 <= i < |s.wq| ==> s.wq[i].item in s.tcbs
  }

  ghost function Rings(s: State): seq<EM.Ring>
    requires WaitersLive(s)
  {
    seq(|s.wq|, i requires 0 <= i < |s.wq| => s.tcbs[s.wq[i].item].ring)
  }

  /** What the event manager finds: outside events, and the threads in the dead queue. */
  ghost function PollOf(s: State, polled: set<nat>): EM.Poll {
    EM.Poll(polled, Items(s.dq))
  }

  /** The rings of the waiting threads after both passes of the event manager. */
  ghost function Polled(s: State, polled: set<nat>, late: map<nat, Status>): (r: (EM.Env, seq<EM.Ring>))
    requires WaitersLive(s)
    ensures |r.1| == |s.wq|
  {
    var (env1, rings1) := EM.MarkRings(s.env, Rings(s), PollOf(s, polled));
    EM.CleanRings(env1, rings1, late)
  }

  ghost function Woken(s: State, rings: seq<EM.Ring>): set<Tid>
    requires WaitersLive(s) && |rings| == |s.wq|
  {
    set i | 0 <= i < |s.wq| && (EM.AnyOccurred(rings[i]) || s.tcbs[s.wq[i].item].cancelReq) :: s.wq[i].item
  }

  function Base(s: State): Tid -> int {
    t => if t in s.tcbs then s.tcbs[t].prio else 0
  }

  /** The new ring of a waiting thread. */
  ghost function RingOf(s: State, rings: seq<EM.Ring>, t: Tid): EM.Ring
    requires |rings| == |s.wq| && t in Items(s.wq)
  {
    var i :| 0 <= i < |s.wq| && s.wq[i].item == t;
    rings[i]
  }

  ghost function WakeTcbs(s: State, rings: seq<EM.Ring>, woken: set<Tid>): map<Tid, Tcb>
    requires |rings| == |s.wq|
  {
    map t | t in s.tcbs ::
      if t !in Items(s.wq) then s.tcbs[t]
      else s.tcbs[t].(ring := RingOf(s, rings, t), state := if t in woken then Ready else s.tcbs[t].state)
  }

  /** One pass of the event manager: poll all waiting events, move whoever has something
      to do to the ready queue. */
  ghost function EventPass(s: State, polled: set<nat>, late: map<nat, Status>): State
    requires WaitersLive(s)
  {
    var (env, rings) := Polled(s, polled, late);
    var woken := Woken(s, rings);
    s.(tcbs := WakeTcbs(s, rings, woken),
       wq := Keep(s.wq, woken),
       rq := WakeInto(s.wq, s.rq, woken, Base(s)),
       env := env)
  }

  /** New threads become ready, from the tail of their queue. */
  function DrainInto(nq: Queue<Tid>, rq: Queue<Tid>, favour: bool): Queue<Tid> {
    if nq == [] then rq else
      var t := nq[|nq| - 1].item;
      DrainInto(nq[..|nq| - 1], Insert(rq, if favour then FavoritePrio(rq) else PRIO_STD, t), favour)
  }

  ghost function Drain(s: State): State {
    s.(tcbs := map t | t in s.tcbs :: if t in Items(s.nq) then s.tcbs[t].(state := Ready) else s.tcbs[t],
       nq := [],
       rq := DrainInto(s.nq, s.rq, s.favourNew))
  }

  /** The next thread to run, or None where the scheduler aborts. */
  ghost function Dispatch(s: State): Option<State> {
    var s1 := Drain(s);
    if s1.rq == [] then None else Some(s1.(current := Some(s1.rq[0].item), rq := s1.rq[1..]))
  }
}
