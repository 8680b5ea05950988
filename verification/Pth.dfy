/** The library as it is written: five intrusive queues, the control blocks and the running
    thread, changed in place.  Every method is tied to its function in Scheduler. */
module Pth {
  import opened Sequences
  import opened Wrappers
  import opened PthTypes
  import opened PrioritySequence
  import EM = EventManager
  import opened Scheduler
  import opened SchedulerInvariant
  import opened SchedulerRuns
  import opened ThreadRing
  import opened PQueues
  import opened ThreadNames
  import opened ThreadQueues
  import opened WakeSweep

  class Library {
    const qs: Queues
    var current: Thread?
    var favourNew: bool
    var env: EM.Env

    ghost predicate Valid()
      reads this, qs, qs.nq, qs.rq, qs.wq, qs.sq, qs.dq
      reads qs.blocks.Values`qNext, qs.blocks.Values`qPrev, qs.blocks.Values`qPrio
    {
      qs.Valid() && (current != null ==> qs.Here(current) && qs.Free(current))
    }

    ghost function CurrentId(): Option<Tid>
      reads this
    {
      IdOf(current)
    }

    /** The state that the control blocks and the rings stand for. */
    ghost function View(): State
      reads this, qs, qs.nq, qs.rq, qs.wq, qs.sq, qs.dq, qs.blocks.Values
      requires Valid()
    {
      State(qs.Blocks(), CurrentId(), qs.List(NQ), qs.List(RQ), qs.List(WQ), qs.List(SQ), qs.List(DQ), favourNew, env)
    }

    /** Two states are the same when they agree on every queue and on everything else. */
    lemma Shown(s: State)
      requires Valid() && s.tcbs == qs.Blocks() && s.current == CurrentId() && s.favourNew == favourNew && s.env == env
      requires forall n :: s.Get(n) == qs.List(n)
      ensures View() == s
    {
      hide Queues.Valid, Queues.List, Queues.Blocks;
      assert s.Get(NQ) == s.nq && s.Get(RQ) == s.rq && s.Get(WQ) == s.wq && s.Get(SQ) == s.sq && s.Get(DQ) == s.dq;
    }

    lemma Seen()
      requires Valid()
      ensures forall n :: View().Get(n) == qs.List(n)
      ensures View().tcbs == qs.Blocks() && View().current == CurrentId()
      ensures forall t: Thread :: qs.Here(t) ==> t.id in View().tcbs && View().tcbs[t.id] == Block(t)
    {
      hide Queues.Valid, Queues.List;
    }

    /** pth_init: only the main thread exists, and it runs. */
    constructor (main: Tid, prio: int, joinable: bool, cancelEnabled: bool, cancelAsync: bool)
      ensures Valid() && Init(View()) && View().current == Some(main) && favourNew
    {
      hide Queues.Valid, Queues.List;
      var t := new Thread(main, prio, Ready, joinable, cancelEnabled, cancelAsync);
      var q := new Queues();
      q.Register(t);
      qs := q;
      current, favourNew := t, true;
      env := EM.Env(map[], map[]);
      new;
    }

    // ---- single steps

    method Put(n: QueueName, prio: int, t: Thread)
      requires Valid() && qs.Here(t) && qs.Free(t) && t != current
      modifies qs.Q(n), qs.blocks.Values`qNext, qs.blocks.Values`qPrev, qs.blocks.Values`qPrio
      ensures Valid() && View() == old(View()).Put(n, Insert(old(View()).Get(n), prio, t.id))
    {
      hide Queues.Valid, Queues.List, Queues.Blocks, Insert;
      Seen();
      ghost var v := View();
      qs.Enqueue(n, prio, t);
      Swapped(v, n, Insert(v.Get(n), prio, t.id));
    }

    method Take(n: QueueName, t: Thread)
      requires Valid() && t in qs.Q(n).nodes
      modifies qs.Q(n), qs.blocks.Values`qNext, qs.blocks.Values`qPrev, qs.blocks.Values`qPrio
      ensures Valid() && qs.Here(t) && qs.Free(t) && t != current
      ensures Contains(old(View()).Get(n), t.id) && View() == old(View()).Put(n, Delete(old(View()).Get(n), t.id))
    {
      hide Queues.Valid, Queues.List, Queues.Blocks, Delete, Contains;
      Seen();
      ghost var v := View();
      qs.Dequeue(n, t);
      Swapped(v, n, Delete(v.Get(n), t.id));
    }

    /** One queue is replaced. */
    lemma Swapped(v: State, n: QueueName, q: Queue<Tid>)
      requires Valid() && v.tcbs == qs.Blocks() && v.current == CurrentId() && v.favourNew == favourNew && v.env == env
      requires qs.List(n) == q && forall m :: m != n ==> qs.List(m) == v.Get(m)
      ensures View() == v.Put(n, q)
    {
      hide Queues.Valid, Queues.List, Queues.Blocks;
      assert forall m :: v.Put(n, q).Get(m) == if m == n then q else v.Get(m);
      Shown(v.Put(n, q));
    }

    /** The control blocks are replaced. */
    lemma Retold(v: State, tcbs: map<Tid, Tcb>)
      requires Valid() && qs.Blocks() == tcbs && v.current == CurrentId() && v.favourNew == favourNew && v.env == env
      requires forall n :: qs.List(n) == v.Get(n)
      ensures View() == v.(tcbs := tcbs)
    {
      hide Queues.Valid, Queues.List, Queues.Blocks;
      assert forall n :: v.(tcbs := tcbs).Get(n) == v.Get(n);
      Shown(v.(tcbs := tcbs));
    }

    lemma Flags()
      requires Valid()
      ensures View().favourNew == favourNew && View().env == env
    {
    }

    /** What the state says of a control block in use. */
    lemma Known(t: Thread)
      requires Valid() && qs.Here(t)
      ensures t.id in View().tcbs && View().tcbs[t.id] == Block(t)
      ensures View().current == Some(t.id) <==> current == t
    {
      hide Queues.Valid, Queues.List;
    }

    method SetState(t: Thread, state: ThreadState)
      requires Valid() && qs.Here(t)
      modifies t`state
      ensures t.state == state
      ensures Valid() && t.id in old(View()).tcbs
      ensures View() == old(View()).SetTcb(t.id, old(View()).tcbs[t.id].(state := state))
    {
      hide Queues.Valid, Queues.List, Queues.Blocks;
      Seen();
      Known(t);
      ghost var v := View();
      qs.Ids();
      qs.SetState(t, state);
      Retold(v, v.tcbs[t.id := v.tcbs[t.id].(state := state)]);
    }

    method SetJoinArg(t: Thread, value: int)
      requires Valid() && qs.Here(t)
      modifies t`joinArg
      ensures t.joinArg == value
      ensures Valid() && t.id in old(View()).tcbs
      ensures View() == old(View()).SetTcb(t.id, old(View()).tcbs[t.id].(joinArg := value))
    {
      hide Queues.Valid, Queues.List, Queues.Blocks;
      Seen();
      Known(t);
      ghost var v := View();
      qs.Ids();
      qs.SetJoinArg(t, value);
      Retold(v, v.tcbs[t.id := v.tcbs[t.id].(joinArg := value)]);
    }

    method SetCancelReq(t: Thread, req: bool)
      requires Valid() && qs.Here(t)
      modifies t`cancelReq
      ensures t.cancelReq == req
      ensures Valid() && t.id in old(View()).tcbs
      ensures View() == old(View()).SetTcb(t.id, old(View()).tcbs[t.id].(cancelReq := req))
    {
      hide Queues.Valid, Queues.List, Queues.Blocks;
      Seen();
      Known(t);
      ghost var v := View();
      qs.Ids();
      qs.SetCancelReq(t, req);
      Retold(v, v.tcbs[t.id := v.tcbs[t.id].(cancelReq := req)]);
    }

    method SetEvents(t: Thread, ring: EM.Ring)
      requires Valid() && qs.Here(t)
      modifies t`ring
      ensures t.ring == ring
      ensures Valid() && t.id in old(View()).tcbs
      ensures View() == old(View()).SetTcb(t.id, old(View()).tcbs[t.id].(ring := ring))
    {
      hide Queues.Valid, Queues.List, Queues.Blocks;
      Seen();
      Known(t);
      ghost var v := View();
      qs.Ids();
      qs.SetEvents(t, ring);
      Retold(v, v.tcbs[t.id := v.tcbs[t.id].(ring := ring)]);
    }

    method Detach(t: Thread)
      requires Valid() && qs.Here(t)
      modifies t`joinable, t`cancelEnabled, t`cancelAsync
      ensures !t.joinable && t.cancelEnabled && t.cancelAsync
      ensures Valid() && t.id in old(View()).tcbs
      ensures var c := old(View()).tcbs[t.id].(joinable := false, cancelEnabled := true, cancelAsync := true);
              View() == old(View()).SetTcb(t.id, c)
    {
      hide Queues.Valid, Queues.List, Queues.Blocks;
      Seen();
      Known(t);
      ghost var v := View();
      qs.Ids();
      qs.Detach(t);
      Retold(v, v.tcbs[t.id := v.tcbs[t.id].(joinable := false, cancelEnabled := true, cancelAsync := true)]);
    }

    /** pth_tcb_free. */
    method Drop(t: Thread)
      requires Valid() && qs.Here(t) && qs.Free(t) && t != current
      modifies qs
      ensures Valid() && qs.blocks == old(qs.blocks) - {t.id}
      ensures View() == old(View()).(tcbs := old(View()).tcbs - {t.id})
    {
      hide Queues.Valid, Queues.List, Queues.Blocks;
      Seen();
      ghost var v := View();
      qs.Ids();
      qs.Release(t);
      Retold(v, v.tcbs - {t.id});
    }

    // ---- calls of the running thread

    /** A fresh control block comes into use. */
    method Adopt(t: Thread)
      requires Valid() && t.id !in qs.blocks
      modifies qs
      ensures Valid() && qs.Here(t) && qs.Free(t) && t != current && qs.blocks == old(qs.blocks)[t.id := t]
      ensures View() == old(View()).SetTcb(t.id, Block(t))
    {
      hide Queues.Valid, Queues.List, Queues.Blocks;
      Seen();
      ghost var v := View();
      qs.Ids();
      qs.Register(t);
      Retold(v, v.tcbs[t.id := Block(t)]);
    }

    method Spawn(id: Tid, c: Tcb) returns (t: Thread)
      requires Valid() && id !in qs.blocks
      modifies qs, qs.nq, qs.blocks.Values`qNext, qs.blocks.Values`qPrev, qs.blocks.Values`qPrio
      ensures Valid() && fresh(t) && t.id == id && qs.Here(t)
      ensures qs.blocks.Values <= old(qs.blocks.Values) + {t}
      ensures View() == Scheduler.Spawn(old(View()), id, c)
    {
      hide Valid, View;
      hide Insert;
      t := new Thread(id, c.prio, New, c.joinable, c.cancelEnabled, c.cancelAsync);
      assert Block(t) == c.(state := New, cancelReq := false, joinArg := 0, ring := []);
      Adopt(t);
      Put(NQ, c.prio, t);
    }

    method Suspend(t: Thread) returns (e: Option<Error>)
      requires Valid() && qs.Here(t)
      modifies qs.nq, qs.rq, qs.wq, qs.sq, qs.blocks.Values`qNext, qs.blocks.Values`qPrev, qs.blocks.Values`qPrio
      ensures Valid()
      ensures (View(), e) == Scheduler.Suspend(old(View()), t.id)
    {
      hide Valid, View;
      hide Insert, Delete, Contains;
      Known(t);
      if t == current {
        return Some(EPERM);
      }
      var q := QueueOf(t.state);
      if q == None {
        return Some(EPERM);
      }
      var found := Present(q.value, t);
      if !found {
        return Some(ESRCH);
      }
      Take(q.value, t);
      Put(SQ, PRIO_STD, t);
      return None;
    }

    method Present(n: QueueName, t: Thread) returns (found: bool)
      requires Valid() && qs.Here(t)
      ensures found <==> t in qs.Q(n).nodes
      ensures found <==> Contains(View().Get(n), t.id)
    {
      hide Queues.Valid, Queues.List, Queues.Blocks, Contains;
      Seen();
      found := qs.IsIn(n, t);
    }

    method Resume(t: Thread) returns (e: Option<Error>)
      requires Valid() && qs.Here(t) && Inv(View())
      modifies qs.nq, qs.rq, qs.wq, qs.sq, qs.blocks.Values`qNext, qs.blocks.Values`qPrev, qs.blocks.Values`qPrio
      ensures Valid() && (Contains(old(View()).sq, t.id) ==> QueueOf(old(View()).tcbs[t.id].state).Some?)
      ensures (View(), e) == Scheduler.Resume(old(View()), t.id)
    {
      hide Valid, View;
      hide Insert, Delete, Contains, Inv;
      Known(t);
      var found := Present(SQ, t);
      if found {
        ResumeDefined(View(), t.id);
      }
      if t == current || !found {
        return Some(EPERM);
      }
      Take(SQ, t);
      Put(QueueOf(t.state).value, PRIO_STD, t);
      return None;
    }

    /** pth_yield to a given thread, up to the switch. */
    method Favour(to: Thread) returns (e: Option<Error>)
      requires Valid() && qs.Here(to)
      modifies qs.nq, qs.rq, qs.blocks.Values`qNext, qs.blocks.Values`qPrev, qs.blocks.Values`qPrio
      ensures Valid()
      ensures (View(), e) == Scheduler.Favour(old(View()), to.id)
    {
      hide Valid, View;
      hide Favorite, Contains;
      Known(to);
      if to.state != New && to.state != Ready {
        return Some(EINVAL);
      }
      var n := if to.state == New then NQ else RQ;
      var found := Present(n, to);
      if !found {
        return Some(EINVAL);
      }
      Prefer(n, to);
      return None;
    }

    method Prefer(n: QueueName, t: Thread)
      requires Valid() && t in qs.Q(n).nodes
      modifies qs.Q(n), qs.blocks.Values`qNext, qs.blocks.Values`qPrev, qs.blocks.Values`qPrio
      ensures Valid() && Contains(old(View()).Get(n), t.id)
      ensures View() == old(View()).Put(n, Favorite(old(View()).Get(n), t.id))
    {
      hide Queues.Valid, Queues.List, Queues.Blocks, Favorite, Contains;
      Seen();
      ghost var v := View();
      qs.Prefer(n, t);
      Swapped(v, n, Favorite(v.Get(n), t.id));
    }

    method Cancel(t: Thread) returns (e: Option<Error>)
      requires Valid() && qs.Here(t)
      modifies qs, qs.nq, qs.rq, qs.wq, qs.dq, qs.blocks.Values
      ensures qs.blocks.Values <= old(qs.blocks.Values)
      ensures Valid()
      ensures (View(), e) == Scheduler.Cancel(old(View()), t.id)
    {
      hide Valid, View;
      hide Insert, Delete, Contains;
      Known(t);
      if t == current {
        return Some(EINVAL);
      }
      if t.state == Dead {
        return Some(EPERM);
      }
      if t.cancelEnabled && t.cancelAsync {
        CancelSplits(View(), t.id);
      }
      ghost var c := Block(t).(cancelReq := true);
      SetCancelReq(t, true);
      if t.cancelEnabled && t.cancelAsync {
        assert Block(t) == c && View() == old(View()).SetTcb(t.id, c);
        e := CancelNow(t);
        return e;
      }
      return None;
    }

    /** The immediate part of a cancel. */
    method CancelNow(t: Thread) returns (e: Option<Error>)
      requires Valid() && qs.Here(t) && t != current && t.state != Dead
      modifies qs, qs.nq, qs.rq, qs.wq, qs.dq, qs.blocks.Values
      ensures qs.blocks.Values <= old(qs.blocks.Values)
      ensures Valid()
      ensures (View(), e) == CancelledNow(old(View()), t.id, old(Block(t)))
    {
      hide Valid, View;
      hide Insert, Delete, Contains;
      Known(t);
      ghost var v := View();
      var q := QueueOf(t.state).value;
      var found := Present(q, t);
      if !found {
        return Some(ESRCH);
      }
      Take(q, t);
      if !t.joinable {
        Drop(t);
      } else {
        Bury(t);
        PutCommutes(v, q, Delete(v.Get(q), t.id), t.id, v.tcbs[t.id].(joinArg := CANCELED, state := Dead));
      }
      return None;
    }

    /** A cancelled thread goes to the dead queue. */
    method Bury(t: Thread)
      requires Valid() && qs.Here(t) && qs.Free(t) && t != current
      modifies qs.dq, t`state, t`joinArg, qs.blocks.Values`qNext, qs.blocks.Values`qPrev, qs.blocks.Values`qPrio
      ensures Valid() && t.id in old(View()).tcbs
      ensures var s := old(View());
              var c := s.tcbs[t.id].(joinArg := CANCELED, state := Dead);
              View() == s.SetTcb(t.id, c).Put(DQ, Insert(s.dq, PRIO_STD, t.id))
    {
      hide Valid, View;
      hide Insert;
      Known(t);
      TwiceSet(View(), t.id, Block(t).(joinArg := CANCELED), Block(t).(joinArg := CANCELED, state := Dead));
      SetJoinArg(t, CANCELED);
      SetState(t, Dead);
      Put(DQ, PRIO_STD, t);
    }

    /** pth_abort. */
    method Abort(t: Thread) returns (e: Option<Error>)
      requires Valid() && qs.Here(t) && Inv(View())
      modifies qs, qs.nq, qs.rq, qs.wq, qs.dq, qs.blocks.Values
      ensures qs.blocks.Values <= old(qs.blocks.Values)
      ensures Valid() && JoinSafe(old(View()), Some(t.id))
      ensures (View(), e) == Scheduler.Abort(old(View()), t.id)
    {
      hide Valid, View;
      hide Inv, Contains, Delete;
      hide Scheduler.Cancel, JoinBegin, JoinSafe;
      Known(t);
      JoinIsSafe(View(), Some(t.id));
      if t == current {
        return Some(EINVAL);
      }
      if t.state == Dead && t.joinable {
        var r, e', wait := Join(t, false);
        if e'.Some? {
          return e';
        }
        return if wait then Some(EIO) else None;
      } else {
        Detach(t);
        e := Cancel(t);
      }
    }

    /** pth_join; waited says whether its wait lies behind it. */
    method Join(tid: Thread?, waited: bool) returns (r: Option<int>, e: Option<Error>, wait: bool)
      requires Valid() && Inv(View()) && (tid != null ==> qs.Here(tid))
      modifies qs, qs.dq, qs.blocks.Values`qNext, qs.blocks.Values`qPrev, qs.blocks.Values`qPrio
      ensures qs.blocks.Values <= old(qs.blocks.Values)
      ensures Valid() && JoinSafe(old(View()), IdOf(tid))
      ensures var s, id := old(View()), IdOf(tid);
              var j := if waited then JoinEnd(s, id) else JoinBegin(s, id);
              && View() == AfterJoin(s, j)
              && wait == j.MustWait?
              && e == (if j.Refused? then Some(j.error) else None)
              && r == (if j.Joined? then Some(j.value) else None)
    {
      hide Valid, View;
      hide Inv, Reap, JoinTarget;
      if tid != null {
        Known(tid);
      }
      JoinIsSafe(View(), IdOf(tid));
      if !waited {
        var error := Refusal(tid);
        if error != None {
          return None, error, false;
        }
      }
      r := Collect(tid);
      e, wait := if r == None && waited then Some(EIO) else None, r == None && !waited;
    }

    /** The end of a join: the value of the thread if it is dead, whose control block is then freed. */
    method Collect(tid: Thread?) returns (r: Option<int>)
      requires Valid() && (tid != null ==> qs.Here(tid)) && JoinSafe(View(), IdOf(tid))
      modifies qs, qs.dq, qs.blocks.Values`qNext, qs.blocks.Values`qPrev, qs.blocks.Values`qPrio
      ensures qs.blocks.Values <= old(qs.blocks.Values)
      ensures Valid()
      ensures var j := JoinEnd(old(View()), IdOf(tid));
              View() == AfterJoin(old(View()), j) && r == if j.Joined? then Some(j.value) else None
    {
      hide Valid, View;
      hide Contains, Delete;
      var t := tid;
      if t == null {
        t := FirstDead();
      }
      if t != null {
        Known(t);
      }
      if t == null || t.state != Dead {
        return None;
      }
      r := Some(t.joinArg);
      var there := Present(DQ, t);
      Take(DQ, t);
      Drop(t);
    }

    /** The first tests of a join. */
    method Refusal(tid: Thread?) returns (e: Option<Error>)
      requires Valid() && (tid != null ==> qs.Here(tid))
      ensures e == if tid != null && View().current == IdOf(tid) then Some(EDEADLK)
                   else if tid != null && !tid.joinable then Some(EINVAL)
                   else if ThreadCount(View()) == 1 then Some(EDEADLK) else None
    {
      hide Valid, View;
      hide ThreadCount;
      if tid != null {
        Known(tid);
        if tid == current {
          return Some(EDEADLK);
        }
        if !tid.joinable {
          return Some(EINVAL);
        }
      }
      var n := CountThreads();
      return if n == 1 then Some(EDEADLK) else None;
    }

    /** The number of threads that pth_ctrl reports: all queues and the caller. */
    method CountThreads() returns (k: int)
      requires Valid()
      ensures k == ThreadCount(View())
    {
      hide Queues.Valid, Queues.List, Queues.Blocks;
      Seen();
      var n := qs.Size(NQ);
      var r := qs.Size(RQ);
      var w := qs.Size(WQ);
      var s := qs.Size(SQ);
      var d := qs.Size(DQ);
      k := n + r + 1 + w + s + d;
    }

    method FirstDead() returns (t: Thread?)
      requires Valid()
      ensures t == null <==> View().dq == []
      ensures t != null ==> qs.Here(t) && t.id == View().dq[0].item
    {
      hide Queues.Valid, Queues.List, Queues.Blocks;
      t := qs.First(DQ);
    }

    /** pth_cancel_point: whether the running thread now has to exit. */
    method CancelPoint() returns (exit: bool)
      requires Valid() && current != null
      modifies current`cancelReq
      ensures Valid() && View().current.Some? && View().current.value in old(View()).tcbs
      ensures (View(), exit) == Scheduler.CancelPoint(old(View()))
    {
      hide Valid, View;
      Running();
      exit := current.cancelReq && current.cancelEnabled;
      if exit {
        SetCancelReq(current, false);
      }
    }

    lemma Running()
      requires Valid() && current != null
      ensures qs.Here(current) && View().current == Some(current.id)
      ensures current.id in View().tcbs && View().tcbs[current.id] == Block(current)
    {
      hide Queues.Valid, Queues.List;
      Known(current);
    }

    // ---- the scheduler

    method AgeReady()
      requires Valid()
      modifies qs.rq, qs.blocks.Values`qPrio
      ensures Valid() && View() == old(View()).Put(RQ, Increase(old(View()).rq))
      ensures forall x :: qs.Here(x) && old(qs.Free(x)) ==> qs.Free(x)
    {
      hide Queues.Valid, Queues.List, Queues.Blocks, Increase;
      Seen();
      ghost var v := View();
      qs.Age(RQ);
      Swapped(v, RQ, Increase(v.Get(RQ)));
    }

    /** The running thread is no longer the running one. */
    method StepDown() returns (t: Thread)
      requires Valid() && current != null
      modifies `current
      ensures t == old(current) && current == null && qs.Here(t) && qs.Free(t)
      ensures Valid() && View() == old(View()).(current := None)
    {
      hide Queues.Valid, Queues.List, Queues.Blocks;
      t := current;
      current := null;
    }

    /** What the running thread does to its own control block before it gives up control. */
    method Announce(l: Leave)
      requires Valid() && current != null && current.state == Ready
      modifies current`state, current`joinArg, current`ring
      ensures Valid() && current.id in old(View()).tcbs && old(View()).current == Some(current.id)
      ensures View() == old(View()).SetTcb(current.id, Announced(old(View()).tcbs[current.id], l))
      ensures Block(current) == Announced(old(View()).tcbs[current.id], l)
    {
      hide Valid, View;
      Running();
      var t := current;
      ghost var v, c := View(), Block(t);
      match l {
        case Exits(value) =>
          TwiceSet(v, t.id, c.(joinArg := value), Announced(c, l));
          SetJoinArg(t, value);
          SetState(t, Dead);
        case Waits(ring) =>
          TwiceSet(v, t.id, c.(ring := Reset(ring)), Announced(c, l));
          SetEvents(t, Reset(ring));
          SetState(t, Waiting);
        case Yields =>
          SameTcb(v, t.id);
      }
    }

    /** The scheduler takes back the thread that gave up control. */
    method TakeBack(l: Leave)
      requires Valid() && current != null && current.state == Ready
      modifies this`current, qs, qs.rq, qs.wq, qs.dq, qs.blocks.Values
      ensures Valid() && current == null
      ensures old(View()).current.Some? && old(View()).current.value in old(View()).tcbs
      ensures View() == Return(old(View()), l)
      ensures qs.blocks.Values <= old(qs.blocks.Values)
    {
      hide Valid, View;
      hide Insert, Increase, Filed, Return, Announced;
      ghost var v := View();
      Running();
      Announce(l);
      ReturnShape(v, l);
      var t := StepDown();
      FileAway(t);
      AgeReady();
      if t.state == Ready {
        Put(RQ, t.prio, t);
      }
    }

    /** A dead thread is freed or goes to the dead queue, a waiting one to the waiting queue. */
    method FileAway(t: Thread)
      requires Valid() && current == null && qs.Here(t) && qs.Free(t)
      modifies qs, qs.wq, qs.dq, qs.blocks.Values`qNext, qs.blocks.Values`qPrev, qs.blocks.Values`qPrio
      ensures Valid() && View() == Filed(old(View()), t.id, old(Block(t))) && qs.blocks.Values <= old(qs.blocks.Values)
      ensures t.state == Ready ==> qs.Here(t) && qs.Free(t)
    {
      hide Valid, View;
      hide Insert;
      if t.state == Dead {
        if !t.joinable {
          Drop(t);
        } else {
          Put(DQ, PRIO_STD, t);
        }
      } else if t.state == Waiting {
        Put(WQ, t.prio, t);
      }
    }

    /** New threads become ready, the last of the queue first. */
    method DrainNew()
      requires Valid() && Distinct(View().nq)
      modifies qs.nq, qs.rq, qs.blocks.Values`qNext, qs.blocks.Values`qPrev, qs.blocks.Values`qPrio,
               qs.blocks.Values`state
      ensures Valid() && View() == Drain(old(View()))
    {
      hide Valid, View;
      hide Items, Distinct, Contains, Drain, Drained, OneReady, Queues.Q;
      ghost var v := View();
      NoneDrained(v);
      var t := LastNew();
      while t != null
        invariant Valid() && Distinct(View().nq) && Drained(v, View())
        invariant t == null <==> View().nq == []
        invariant t != null ==> qs.Here(t) && t in qs.Q(NQ).nodes && t.id == View().nq[|View().nq| - 1].item
        decreases |View().nq|
      {
        DrainedStep(v, View());
        MakeReady(t);
        t := LastNew();
      }
      DrainedAll(v, View());
    }

    /** One new thread becomes ready. */
    method MakeReady(t: Thread)
      requires Valid() && t in qs.Q(NQ).nodes && Contains(View().nq, t.id)
      modifies qs.nq, qs.rq, qs.blocks.Values`qNext, qs.blocks.Values`qPrev, qs.blocks.Values`qPrio, t`state
      ensures Valid() && t.id in old(View()).tcbs && View() == OneReady(old(View()), t.id)
    {
      hide Valid, View;
      hide Insert, Delete, Contains, FavoritePrio, Queues.Free;
      Flags();
      Take(NQ, t);
      Known(t);
      SetState(t, Ready);
      var prio := PRIO_STD;
      if favourNew {
        prio := BestPrio();
      }
      Put(RQ, prio, t);
    }

    method LastNew() returns (t: Thread?)
      requires Valid()
      ensures t == null <==> View().nq == []
      ensures t != null ==> qs.Here(t) && t in qs.Q(NQ).nodes && t.id == View().nq[|View().nq| - 1].item
    {
      hide Queues.Valid, Queues.List, Queues.Blocks;
      t := qs.Last(NQ);
    }

    method BestPrio() returns (prio: int)
      requires Valid()
      ensures prio == FavoritePrio(View().rq) && View().favourNew == favourNew
    {
      hide PQueue.Valid, PQueue.Contents, Names;
      qs.Q(RQ).Extent();
      prio := qs.rq.FavoritePrio();
    }

    /** The waiting threads ns stand in v in this order, with these states. */
    ghost predicate Lined(v: State, ns: seq<Thread>, states: seq<ThreadState>)
      reads qs
    {
      && |v.wq| == |ns| == |states|
      && forall k :: 0 <= k < |ns| ==>
           && qs.Here(ns[k]) && v.wq[k].item == ns[k].id
           && ns[k].id in v.tcbs && v.tcbs[ns[k].id].state == states[k]
    }

    /** The waiting threads, read off their control blocks. */
    lemma RingsShown(v: State, ns: seq<Thread>, w: Queue<Thread>)
      requires Valid() && v == View() && ns == qs.Q(WQ).nodes && w == qs.Q(WQ).Contents() && WaitersLive(v)
      ensures Rings(v) == RingsOf(ns)
      ensures |v.wq| == |w| == |ns| && v.wq == Names(w)
      ensures Lined(v, ns, StatesOf(ns))
      ensures forall k :: 0 <= k < |ns| ==> w[k].item == ns[k]
    {
      hide PQueue.Valid, PQueue.Contents, Names, RingsOf, StatesOf;
      qs.Q(WQ).Extent();
      forall k | 0 <= k < |ns|
        ensures qs.Here(ns[k]) && w[k].item == ns[k] && v.tcbs[v.wq[k].item].ring == ns[k].ring
        ensures v.wq[k].item == ns[k].id && v.tcbs[ns[k].id].state == ns[k].state
      {
        qs.Q(WQ).At(k);
        Known(ns[k]);
      }
    }

    /** What the loops start from. */
    lemma Inner()
      requires Valid()
      ensures qs.Valid() && qs.Separate() && qs.Named() && View().tcbs == qs.Blocks() && View().env == env
      ensures View().current == CurrentId() && View().favourNew == favourNew
      ensures forall n :: qs.Q(n).Valid() && View().Get(n) == Names(qs.Q(n).Contents())
    {
      hide PQueue.Valid, PQueue.Contents, Names, Queues.Blocks;
    }

    /** What they have to leave behind. */
    lemma Outer(v: State)
      requires qs.Separate() && qs.Named() && qs.Disjoint() && current == null && forall n :: qs.Q(n).Valid()
      requires forall n :: n != WQ && n != RQ ==> v.Get(n) == Names(qs.Q(n).Contents())
      ensures Valid() && forall n :: n != WQ && n != RQ ==> qs.List(n) == v.Get(n)
    {
      hide PQueue.Valid, PQueue.Contents, Names;
    }

    /** The control blocks after both loops are those of the state machine. */
    lemma BlocksShown(v: State, ns: seq<Thread>, rings: seq<EM.Ring>, states: seq<ThreadState>, wake: set<Thread>)
      requires qs.Named() && qs.Steady(v.tcbs) && qs.OnlyWaiters(v.tcbs, ns)
      requires Lined(v, ns, states) && Distinct(v.wq) && WaitersLive(v) && rings == RingsOf(ns)
      requires wake == Roused(ns, rings) && Decided(ns, |ns|, wake, states)
      ensures qs.Blocks() == WakeTcbs(v, rings, Woken(v, rings))
      ensures forall k :: 0 <= k < |ns| ==> (ns[k] in wake <==> ns[k].id in Woken(v, rings))
    {
      hide Woken, Distinct, Roused, RingsOf;
      WokenShown(v, ns, rings);
      forall k | 0 <= k < |ns|
        ensures qs.Blocks()[v.wq[k].item] == WakenTcb(v.tcbs[v.wq[k].item], rings[k], v.wq[k].item in Woken(v, rings))
      {
        assert qs.blocks[v.wq[k].item] == ns[k];
      }
      forall i | i in v.tcbs && i !in Items(v.wq)
        ensures qs.Blocks()[i] == v.tcbs[i]
      {
        NotWaiting(v, i);
        assert qs.blocks[i] !in ns;
      }
      WakeTcbsIs(v, rings, qs.Blocks());
    }

    /** Who is roused on the rings is woken in the state. */
    lemma WokenShown(v: State, ns: seq<Thread>, rings: seq<EM.Ring>)
      requires qs.Named() && qs.Steady(v.tcbs)
      requires |v.wq| == |ns| == |rings| && Distinct(v.wq) && WaitersLive(v)
      requires forall k :: 0 <= k < |ns| ==> qs.Here(ns[k]) && v.wq[k].item == ns[k].id
      ensures forall k :: 0 <= k < |ns| ==> (ns[k] in Roused(ns, rings) <==> ns[k].id in Woken(v, rings))
    {
      hide Roused, Woken, Distinct, EM.AnyOccurred;
      UniqueNames(v, ns);
      forall k | 0 <= k < |ns|
        ensures ns[k] in Roused(ns, rings) <==> ns[k].id in Woken(v, rings)
      {
        RousedAt(ns, rings, k);
        WokenAt(v, rings, k);
      }
    }

    /** The queues after both loops are those of the state machine. */
    lemma EventsShown(v: State, ns: seq<Thread>, w: Queue<Thread>, r: Queue<Thread>, wake: set<Thread>, p: Pass,
                      env': EM.Env)
      requires Valid() && v.current == CurrentId() && v.favourNew == favourNew && WaitersLive(v)
      requires |v.wq| == |ns| == |w| && v.wq == Names(w) && v.rq == Names(r)
      requires (env', RingsOf(ns)) == Polled(v, p.polled, p.late)
      requires forall k :: 0 <= k < |ns| ==>
                 w[k].item == ns[k] && (ns[k] in wake <==> ns[k].id in Woken(v, RingsOf(ns)))
      requires qs.Q(WQ).Valid() && qs.Q(WQ).Contents() == Keep(w, wake)
      requires qs.Q(RQ).Valid() && qs.Q(RQ).Contents() == WakeInto(w, r, wake, BaseOf(v.tcbs))
      requires forall n :: n != WQ && n != RQ ==> qs.List(n) == v.Get(n)
      requires qs.Blocks() == WakeTcbs(v, RingsOf(ns), Woken(v, RingsOf(ns)))
      ensures View().(env := env') == EventPass(v, p.polled, p.late)
    {
      hide PQueue.Valid, PQueue.Contents, Names, RingsOf, Keep, WakeInto, Woken, WakeTcbs, Polled;
      hide Queues.Valid, Queues.Blocks;
      var woken := Woken(v, RingsOf(ns));
      NamesKeep(w, wake, woken);
      NamesWakeInto(w, r, wake, woken, BaseOf(v.tcbs), Base(v));
      var s := EventPass(v, p.polled, p.late).(env := env);
      forall n
        ensures s.Get(n) == qs.List(n)
      {
      }
      Shown(s);
    }

    /** What both loops leave behind is one pass of the state machine. */
    lemma PassShown(v: State, ns: seq<Thread>, w: Queue<Thread>, r: Queue<Thread>, states: seq<ThreadState>, p: Pass,
                    env': EM.Env)
      requires qs.Separate() && qs.Named() && qs.Disjoint() && current == null && forall n :: qs.Q(n).Valid()
      requires forall n :: n != WQ && n != RQ ==> v.Get(n) == Names(qs.Q(n).Contents())
      requires v.current == None && v.favourNew == favourNew && WaitersLive(v) && Distinct(v.wq) && Lined(v, ns, states)
      requires |v.wq| == |ns| == |w| && v.wq == Names(w) && v.rq == Names(r)
      requires forall k :: 0 <= k < |ns| ==> w[k].item == ns[k]
      requires (env', RingsOf(ns)) == Polled(v, p.polled, p.late)
      requires qs.Steady(v.tcbs) && qs.OnlyWaiters(v.tcbs, ns)
      requires var wake := Roused(ns, RingsOf(ns));
               && qs.Q(WQ).Contents() == Keep(w, wake) && qs.Q(RQ).Contents() == WakeInto(w, r, wake, BaseOf(v.tcbs))
               && Decided(ns, |ns|, wake, states)
      ensures Valid() && View().(env := env') == EventPass(v, p.polled, p.late)
    {
      hide PQueue.Valid, PQueue.Contents, Names, RingsOf, Roused, Keep, WakeInto, EventPass, Queues.Disjoint;
      hide Queues.Blocks, Queues.OnlyWaiters, Queues.Steady, Woken, WakeTcbs, View, Valid, Queues.Valid, Queues.List;
      hide Queues.Q, Lined, Decided, WaitersLive, Polled, Distinct;
      Outer(v);
      BlocksShown(v, ns, RingsOf(ns), states, Roused(ns, RingsOf(ns)));
      EventsShown(v, ns, w, r, Roused(ns, RingsOf(ns)), p, env');
    }

    /** The threads in the dead queue, for the events that wait for a thread's end. */
    method DeadIds() returns (dead: set<Tid>)
      requires Valid()
      ensures dead == Items(View().dq)
    {
      hide Queues.Valid, Queues.List, Queues.Blocks, Items;
      dead := qs.Collect(DQ);
    }

    /** One pass of the event manager. */
    method ManageEvents(p: Pass) returns (visited: seq<Thread>)
      requires Valid() && Inv(View()) && current == null
      modifies `env, qs.Q(WQ), qs.Q(RQ), qs.blocks.Values`qNext, qs.blocks.Values`qPrev, qs.blocks.Values`qPrio
      modifies qs.blocks.Values`state, qs.blocks.Values`ring
      ensures Valid() && visited == old(qs.Q(WQ).nodes)
      ensures WaitersLive(old(View())) && View() == EventPass(old(View()), p.polled, p.late)
    {
      hide Inv, View, Valid, EventPass, Items;
      var dead := DeadIds();
      visited := ManageWith(p, dead);
    }

    method ManageWith(p: Pass, dead: set<Tid>) returns (visited: seq<Thread>)
      requires Valid() && Inv(View()) && current == null && dead == Items(View().dq)
      modifies `env, qs.Q(WQ), qs.Q(RQ), qs.blocks.Values`qNext, qs.blocks.Values`qPrev, qs.blocks.Values`qPrio
      modifies qs.blocks.Values`state, qs.blocks.Values`ring
      ensures Valid() && visited == old(qs.Q(WQ).nodes)
      ensures WaitersLive(old(View())) && View() == EventPass(old(View()), p.polled, p.late)
    {
      hide PQueue.Valid, PQueue.Contents, Names, RingsOf, StatesOf, Roused, Keep, WakeInto, EM.MarkRings;
      hide EM.CleanRings, Inv, EventPass;
      hide Queues.Disjoint, Queues.Blocks, Queues.OnlyWaiters, Queues.Steady, Woken, WakeTcbs, View, Valid;
      hide Queues.Valid, Queues.List, Queues.Q, Lined, Decided, WaitersLive, Polled, PollOf, Distinct, Items, Rings;
      Inner();
      ghost var v, ns, w, r := View(), qs.Q(WQ).nodes, qs.Q(WQ).Contents(), qs.Q(RQ).Contents();
      ghost var states, rings := StatesOf(ns), RingsOf(ns);
      WaitersAreLive(v);
      WaitingOrder(v);
      RingsShown(v, ns, w);
      PolledIs(v, p);
      qs.NobodyYet(v.tcbs, ns);
      var env';
      env', visited := qs.EventLoops(env, EM.Poll(p.polled, dead), p.late, v.tcbs, ns, w, r, states, rings);
      PassShown(v, ns, w, r, states, p, env');
      SetEnv(env');
    }

    /** The first thread of the ready queue runs, if there is one. */
    method Choose() returns (running: bool)
      requires Valid() && current == null
      modifies `current, qs.Q(RQ), qs.blocks.Values`qNext, qs.blocks.Values`qPrev, qs.blocks.Values`qPrio
      ensures running <==> old(View()).rq != []
      ensures running ==> Valid() && current != null
      ensures running ==> View() == old(View()).(current := Some(old(View()).rq[0].item), rq := old(View()).rq[1..])
    {
      hide Queues.Valid, Queues.List, Queues.Blocks;
      Seen();
      ghost var v := View();
      var t := qs.DequeueMax(RQ);
      if t == null {
        return false;
      }
      Swapped(v, RQ, v.rq[1..]);
      current := t;
      return true;
    }

    /** The scheduler loop from the thread that gave up control to the next one. */
    method Turn(l: Leave, ps: seq<Pass>) returns (running: bool)
      requires Valid() && Inv(View()) && current != null
      modifies this, qs, qs.nq, qs.rq, qs.wq, qs.dq, qs.blocks.Values
      ensures qs.blocks.Values <= old(qs.blocks.Values)
      ensures running ==> Valid() && current != null
      ensures old(View()).current.Some? && old(View()).current.value in old(View()).tcbs
      ensures if running then Round(old(View()), l, ps) == Next(View()) else Round(old(View()), l, ps) == Aborted
    {
      hide Valid, View;
      hide Inv, Return, EventPass, WaitersLive, Drain;
      Running();
      ReadyRuns(View());
      TakeBack(l);
      ReturnKeeps(old(View()), l);
      ghost var s1 := View();
      var i := 0;
      while i < |ps|
        invariant 0 <= i <= |ps| && Valid() && current == null
        invariant Inv(View())
        invariant Passes(View(), ps[i..]) == Passes(s1, ps)
        invariant qs.blocks.Values <= old(qs.blocks.Values)
      {
        WaitersAreLive(View());
        EventPassKeeps(View(), ps[i].polled, ps[i].late);
        assert ps[i..][0] == ps[i] && ps[i..][1..] == ps[i + 1..];
        var visited := ManageEvents(ps[i]);
        i := i + 1;
      }
      assert ps[i..] == [];
      NewOrder(View());
      DrainNew();
      running := Choose();
    }

    // ---- whole runs

    /** Good: the rings are in order and every thread is where its state says. */
    ghost predicate Good()
      reads this, qs, qs.nq, qs.rq, qs.wq, qs.sq, qs.dq, qs.blocks.Values
    {
      Valid() && current != null && Inv(View())
    }

    /** Whether an id is that of a control block in use. */
    lemma InUse(id: Tid)
      requires Valid()
      ensures id in qs.blocks <==> id in View().tcbs
      ensures id in qs.blocks ==> qs.Here(qs.blocks[id])
    {
      hide PQueue.Valid, Queues.List;
    }

    /** A call that changes neither who runs nor anything but its own. */
    method Settings(step: Step)
      requires Good() && (step.CancelPointStep? || step.CancelStateStep? || step.FavourNewStep? || step.SyncStep?)
      modifies this, qs.blocks.Values
      ensures Valid() && current == old(current) && Exec(old(View()), step) == Next(View())
    {
      hide Valid, View;
      hide Inv;
      Running();
      match step {
        case CancelPointStep => var exit := CancelPoint();
        case CancelStateStep(enabled, async) => SetCancelState(enabled, async);
        case FavourNewStep(favour) => SetFavourNew(favour);
        case SyncStep(e) => SetEnv(e);
      }
    }

    method SetCancelState(enabled: bool, async: bool)
      requires Valid() && current != null
      modifies current`cancelEnabled, current`cancelAsync
      ensures Valid() && current.id in old(View()).tcbs && old(View()).current == Some(current.id)
      ensures View() == old(View()).SetTcb(current.id,
                          old(View()).tcbs[current.id].(cancelEnabled := enabled, cancelAsync := async))
    {
      hide Queues.Valid, Queues.List, Queues.Blocks;
      Seen();
      Known(current);
      ghost var v := View();
      qs.Ids();
      qs.SetCancelState(current, enabled, async);
      Retold(v, v.tcbs[current.id := v.tcbs[current.id].(cancelEnabled := enabled, cancelAsync := async)]);
    }

    method SetFavourNew(favour: bool)
      requires Valid()
      modifies `favourNew
      ensures Valid() && View() == old(View()).(favourNew := favour)
    {
      hide Queues.Valid, Queues.List, Queues.Blocks;
      favourNew := favour;
    }

    method SetEnv(e: EM.Env)
      requires Valid()
      modifies `env
      ensures Valid() && View() == old(View()).(env := e)
    {
      hide Queues.Valid, Queues.List, Queues.Blocks;
      env := e;
    }

    /** A call on a thread that exists. */
    method CallOn(step: Step, t: Thread)
      requires Good() && qs.Here(t)
      requires step == FavourStep(t.id) || step == SuspendStep(t.id) || step == ResumeStep(t.id)
               || step == CancelStep(t.id) || step == AbortStep(t.id)
      modifies qs, qs.nq, qs.rq, qs.wq, qs.sq, qs.dq, qs.blocks.Values
      ensures Valid() && Exec(old(View()), step) == Next(View()) && qs.blocks.Values <= old(qs.blocks.Values)
    {
      hide Valid, View;
      hide Inv, Scheduler.Favour, Scheduler.Suspend, Scheduler.Resume, Scheduler.Cancel, Scheduler.Abort;
      hide JoinSafe, Contains;
      Running();
      Known(t);
      var e;
      match step {
        case FavourStep(_) => e := Favour(t);
        case SuspendStep(_) => e := Suspend(t);
        case ResumeStep(_) => e := Resume(t);
        case CancelStep(_) => e := Cancel(t);
        case AbortStep(_) => e := Abort(t);
      }
    }

    method JoinCall(tid: Option<Tid>, waited: bool) returns (next: bool)
      requires Good()
      modifies qs, qs.dq, qs.blocks.Values
      ensures next <==> (tid.Some? ==> tid.value in old(qs.blocks))
      ensures next ==> Valid() && Exec(old(View()), JoinStep(tid, waited)) == Next(View())
      ensures !next ==> Exec(old(View()), JoinStep(tid, waited)) == Disabled
      ensures qs.blocks.Values <= old(qs.blocks.Values)
    {
      hide Valid, View;
      hide Inv, JoinBegin, JoinEnd, JoinSafe;
      Running();
      if tid.Some? {
        InUse(tid.value);
        if tid.value !in qs.blocks {
          return false;
        }
        NamedBlocks();
      }
      var r, e, wait := Join(if tid.Some? then qs.blocks[tid.value] else null, waited);
      return true;
    }

    /** One step of a run on the rings. */
    method Do(step: Step) returns (next: bool)
      requires Good()
      modifies this, qs, qs.nq, qs.rq, qs.wq, qs.sq, qs.dq, qs.blocks.Values
      ensures next ==> Good() && Exec(old(View()), step) == Next(View())
      ensures next ==> forall x :: x in qs.blocks.Values ==> x in old(qs.blocks.Values) || fresh(x)
      ensures !next ==> Exec(old(View()), step) == Disabled || Exec(old(View()), step) == Aborted
    {
      hide Valid, View;
      hide Inv, Exec;
      ghost var v := View();
      Running();
      StepKeeps(v, step);
      match step {
        case SpawnStep(id, c) => next := SpawnCall(id, c);
        case JoinStep(tid, waited) => next := JoinCall(tid, waited);
        case RoundStep(l, ps) => next := TurnCall(l, ps);
        case CancelPointStep => Settings(step); next := true;
        case CancelStateStep(_, _) => Settings(step); next := true;
        case FavourNewStep(_) => Settings(step); next := true;
        case SyncStep(_) => Settings(step); next := true;
        case _ => next := ThreadCall(step);
      }
      if next {
        Runner();
      }
    }

    lemma Runner()
      requires Valid()
      ensures View().current.Some? <==> current != null
    {
    }

    method SpawnCall(id: Tid, c: Tcb) returns (next: bool)
      requires Good()
      modifies qs, qs.nq, qs.blocks.Values
      ensures next ==> Valid() && Exec(old(View()), SpawnStep(id, c)) == Next(View())
      ensures next ==> forall x :: x in qs.blocks.Values ==> x in old(qs.blocks.Values) || fresh(x)
      ensures !next ==> Exec(old(View()), SpawnStep(id, c)) == Disabled
    {
      hide Valid, View;
      hide Inv, Scheduler.Spawn;
      Running();
      InUse(id);
      if id in qs.blocks {
        return false;
      }
      var t := Spawn(id, c);
      return true;
    }

    method TurnCall(l: Leave, ps: seq<Pass>) returns (next: bool)
      requires Good()
      modifies this, qs, qs.nq, qs.rq, qs.wq, qs.dq, qs.blocks.Values
      ensures next ==> Valid() && Exec(old(View()), RoundStep(l, ps)) == Next(View())
      ensures !next ==> Exec(old(View()), RoundStep(l, ps)) == Aborted
      ensures qs.blocks.Values <= old(qs.blocks.Values)
    {
      hide Valid, View;
      hide Inv, Round;
      Running();
      next := Turn(l, ps);
    }

    method ThreadCall(step: Step) returns (next: bool)
      requires Good()
      requires step.FavourStep? || step.SuspendStep? || step.ResumeStep? || step.CancelStep? || step.AbortStep?
      modifies qs, qs.nq, qs.rq, qs.wq, qs.sq, qs.dq, qs.blocks.Values
      ensures next ==> Valid() && Exec(old(View()), step) == Next(View())
      ensures !next ==> Exec(old(View()), step) == Disabled
      ensures qs.blocks.Values <= old(qs.blocks.Values)
    {
      hide Valid, View;
      hide Inv, Scheduler.Favour, Scheduler.Suspend, Scheduler.Resume, Scheduler.Cancel, Scheduler.Abort;
      hide JoinSafe, Contains;
      Running();
      InUse(step.t);
      NamedBlocks();
      if step.t !in qs.blocks {
        return false;
      }
      CallOn(step, qs.blocks[step.t]);
      return true;
    }

    lemma NamedBlocks()
      requires Valid()
      ensures qs.Named()
    {
    }

    /** A whole run on the rings ends in the state that the run of the state machine ends in, with the
        rings in order and every thread in its place. */
    method Perform(steps: seq<Step>) returns (finished: bool)
      requires Good()
      modifies this, qs, qs.nq, qs.rq, qs.wq, qs.sq, qs.dq, qs.blocks.Values
      ensures finished ==> Good() && Run(old(View()), steps) == Next(View())
      ensures !finished ==> Run(old(View()), steps) == Disabled || Run(old(View()), steps) == Aborted
    {
      hide Valid, View;
      hide Inv, Exec;
      ghost var v := View();
      for i := 0 to |steps|
        invariant Good() && Run(View(), steps[i..]) == Run(v, steps)
        invariant forall x :: x in qs.blocks.Values ==> x in old(qs.blocks.Values) || fresh(x)
      {
        assert steps[i..][1..] == steps[i + 1..];
        var next := Do(steps[i]);
        if !next {
          return false;
        }
      }
      return true;
    }
  }

  lemma ReadyRuns(s: State)
    requires Inv(s) && s.current.Some?
    ensures s.current.value in s.tcbs && s.tcbs[s.current.value].state == Ready
  {
  }

  lemma NewOrder(s: State)
    requires Inv(s)
    ensures Distinct(s.nq)
  {
    assert Distinct(s.Get(NQ));
  }

  function WakenTcb(c: Tcb, ring: EM.Ring, woken: bool): Tcb {
    c.(ring := ring, state := if woken then Ready else c.state)
  }

  lemma NotWaiting(v: State, i: Tid)
    requires i !in Items(v.wq)
    ensures forall k :: 0 <= k < |v.wq| ==> v.wq[k].item != i
  {
  }

  lemma WakeTcbsIs(v: State, rings: seq<EM.Ring>, tcbs: map<Tid, Tcb>)
    requires |rings| == |v.wq| && Distinct(v.wq) && WaitersLive(v) && tcbs.Keys == v.tcbs.Keys
    requires forall k :: 0 <= k < |v.wq| ==>
               tcbs[v.wq[k].item] == WakenTcb(v.tcbs[v.wq[k].item], rings[k], v.wq[k].item in Woken(v, rings))
    requires forall i :: i in v.tcbs && i !in Items(v.wq) ==> tcbs[i] == v.tcbs[i]
    ensures tcbs == WakeTcbs(v, rings, Woken(v, rings))
  {
    hide Woken;
    forall t | t in Items(v.wq) && t in tcbs
      ensures tcbs[t] == WakeTcbs(v, rings, Woken(v, rings))[t]
    {
      var k :| 0 <= k < |v.wq| && v.wq[k].item == t;
      assert RingOf(v, rings, t) == rings[k];
    }
  }

  /** Distinct names belong to distinct threads. */
  lemma UniqueNames(v: State, ns: seq<Thread>)
    requires Distinct(v.wq) && |ns| == |v.wq| && forall k :: 0 <= k < |ns| ==> v.wq[k].item == ns[k].id
    ensures Unique(ns)
  {
  }

  lemma WokenAt(s: State, rings: seq<EM.Ring>, i: nat)
    requires WaitersLive(s) && |rings| == |s.wq| && Distinct(s.wq) && i < |s.wq|
    ensures s.wq[i].item in Woken(s, rings) <==> EM.AnyOccurred(rings[i]) || s.tcbs[s.wq[i].item].cancelReq
    ensures s.wq[i].item in Items(s.wq) && RingOf(s, rings, s.wq[i].item) == rings[i]
  {
    hide EM.AnyOccurred;
    assert s.wq[i].item in Items(s.wq);
    assert RingOf(s, rings, s.wq[i].item) == rings[i];
    WokenMeaning(s, rings, s.wq[i].item);
  }

  lemma WaitingOrder(s: State)
    requires Inv(s)
    ensures Distinct(s.wq)
  {
    assert Distinct(s.Get(WQ));
  }

  lemma PolledIs(s: State, p: Pass)
    requires WaitersLive(s)
    ensures var marked := EM.MarkRings(s.env, Rings(s), EM.Poll(p.polled, Items(s.dq)));
            Polled(s, p.polled, p.late) == EM.CleanRings(marked.0, marked.1, p.late)
  {
    hide Items, Rings, EM.MarkRings, EM.CleanRings;
  }

  /** One new thread made ready. */
  function OneReady(s: State, t: Tid): State
    requires Contains(s.nq, t) && t in s.tcbs
  {
    var s1 := s.Put(NQ, Delete(s.nq, t)).SetTcb(t, s.tcbs[t].(state := Ready));
    s1.Put(RQ, Insert(s.rq, if s.favourNew then FavoritePrio(s.rq) else PRIO_STD, t))
  }

  /** From v some new threads have been made ready, and the rest is still to come. */
  ghost predicate Drained(v: State, s: State) {
    && Items(s.nq) <= Items(v.nq) && s.tcbs.Keys == v.tcbs.Keys
    && DrainInto(s.nq, s.rq, v.favourNew) == DrainInto(v.nq, v.rq, v.favourNew)
    && (forall t :: t in v.tcbs ==>
        s.tcbs[t] == if t in Items(v.nq) - Items(s.nq) then v.tcbs[t].(state := Ready) else v.tcbs[t])
    && s == v.(tcbs := s.tcbs, nq := s.nq, rq := s.rq)
  }

  lemma NoneDrained(v: State)
    ensures Drained(v, v)
  {
    hide Items;
  }

  lemma DrainedStep(v: State, s: State)
    requires Drained(v, s) && s.nq != [] && Distinct(s.nq)
    ensures var t := s.nq[|s.nq| - 1].item;
            && Contains(s.nq, t) && Distinct(s.nq[..|s.nq| - 1])
            && (t in s.tcbs ==> Drained(v, OneReady(s, t)) && OneReady(s, t).nq == s.nq[..|s.nq| - 1])
  {
    hide Items, Distinct, Insert, Delete, Contains, FavoritePrio;
    TakeTail(s.nq);
  }

  lemma DrainedAll(v: State, s: State)
    requires Drained(v, s) && s.nq == []
    ensures s == Drain(v)
  {
    hide Items;
    NoItems<Tid>();
  }

  /** The control block of a thread about to give up control. */
  function Announced(c: Tcb, l: Leave): Tcb {
    match l
    case Exits(value) => c.(state := Dead, joinArg := value)
    case Waits(ring) => c.(state := Waiting, ring := Reset(ring))
    case Yields => c
  }

  /** Where a thread that no longer runs goes by its control block c. */
  function Filed(s: State, t: Tid, c: Tcb): State {
    if c.state == Dead then
      if c.joinable then s.Put(DQ, Insert(s.dq, PRIO_STD, t)) else s.(tcbs := s.tcbs - {t})
    else if c.state == Waiting then s.Put(WQ, Insert(s.wq, c.prio, t))
    else s
  }

  /** What the scheduler does with the thread that came back, step by step. */
  lemma ReturnShape(s: State, l: Leave)
    requires s.current.Some? && s.current.value in s.tcbs && s.tcbs[s.current.value].state == Ready
    ensures var t := s.current.value;
            var c := Announced(s.tcbs[t], l);
            var s1 := Filed(s.SetTcb(t, c).(current := None), t, c);
            var s2 := s1.Put(RQ, Increase(s1.rq));
            && c.prio == s.tcbs[t].prio
            && Return(s, l) == if c.state == Ready then s2.Put(RQ, Insert(s2.rq, c.prio, t)) else s2
  {
    hide Insert, Increase, Reset;
    SameTcb(s, s.current.value);
  }

  /** What an immediate cancel makes of a state whose thread t has control block c. */
  function CancelledNow(s: State, t: Tid, c: Tcb): (State, Option<Error>)
    requires t in s.tcbs && s.tcbs[t] == c && c.state != Dead
  {
    var q := QueueOf(c.state).value;
    if !Contains(s.Get(q), t) then (s, Some(ESRCH))
    else if c.joinable then (Move(s.SetTcb(t, c.(joinArg := CANCELED, state := Dead)), q, DQ, PRIO_STD, t), None)
    else (s.Put(q, Delete(s.Get(q), t)).(tcbs := s.tcbs - {t}), None)
  }

  lemma CancelSplits(s: State, t: Tid)
    requires t in s.tcbs && s.current != Some(t) && s.tcbs[t].state != Dead && s.tcbs[t].cancelEnabled
             && s.tcbs[t].cancelAsync
    ensures var c := s.tcbs[t].(cancelReq := true);
            Scheduler.Cancel(s, t) == CancelledNow(s.SetTcb(t, c), t, c)
  {
    hide Contains, Insert, Delete;
  }

  lemma TwiceSet(s: State, t: Tid, c: Tcb, c': Tcb)
    ensures s.SetTcb(t, c).SetTcb(t, c') == s.SetTcb(t, c')
  {
  }

  lemma PutCommutes(s: State, n: QueueName, q: Queue<Tid>, t: Tid, c: Tcb)
    ensures s.Put(n, q).SetTcb(t, c) == s.SetTcb(t, c).Put(n, q)
    ensures s.SetTcb(t, c).Get(n) == s.Get(n)
  {
  }

  function IdOf(t: Thread?): Option<Tid> {
    if t == null then None else Some(t.id)
  }

  lemma TakeTail(q: Queue<Tid>)
    requires Distinct(q) && q != []
    ensures var t := q[|q| - 1].item;
            && Contains(q, t) && Delete(q, t) == q[..|q| - 1]
            && Distinct(q[..|q| - 1]) && Items(q[..|q| - 1]) == Items(q) - {t} && t in Items(q)
  {
    var v, e := q[..|q| - 1], q[|q| - 1];
    DeleteAt(q, e.item, |q| - 1);
    assert q == v + [e];
    Snoc(v, e);
    assert RemoveAt(q, |q| - 1) == v;
  }
}
