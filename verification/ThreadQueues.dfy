/** The five thread queues of Pth, threaded through the control blocks themselves, and the control
    blocks that exist: what the calls of the library change in place. */
module ThreadQueues {
  import EM = EventManager
  import opened PthTypes
  import opened PrioritySequence
  import opened ThreadRing
  import opened PQueues
  import opened ThreadNames
  import opened Scheduler
  import opened WakeSweep

  /** What a control block holds besides its place in a queue. */
  function Block(t: Thread): Tcb
    reads t`prio, t`state, t`joinable, t`cancelReq, t`cancelEnabled, t`cancelAsync, t`joinArg, t`ring
  {
    Tcb(t.prio, t.state, t.joinable, t.cancelReq, t.cancelEnabled, t.cancelAsync, t.joinArg, t.ring)
  }

  /** The base priorities recorded in a table of control blocks. */
  function BaseOf(tcbs: map<Tid, Tcb>): Thread -> int {
    (t: Thread) => if t.id in tcbs then tcbs[t.id].prio else 0
  }

  class Queues {
    const nq: PQueue
    const rq: PQueue
    const wq: PQueue
    const sq: PQueue
    const dq: PQueue
    /** The control blocks in use, by address. */
    var blocks: map<Tid, Thread>

    function Q(n: QueueName): PQueue {
      match n case NQ => nq case RQ => rq case WQ => wq case SQ => sq case DQ => dq
    }

    ghost predicate Here(t: Thread)
      reads this
    {
      t.id in blocks && blocks[t.id] == t
    }

    /** Different queues are different objects. */
    ghost predicate Separate() {
      forall n, m :: n != m ==> Q(n) != Q(m)
    }

    ghost predicate Named()
      reads this
    {
      forall i :: i in blocks ==> blocks[i].id == i
    }

    /** The queues run through control blocks in use, each through its own. */
    ghost predicate Disjoint()
      reads this, nq, rq, wq, sq, dq
    {
      && (forall n, k :: 0 <= k < |Q(n).nodes| ==> Here(Q(n).nodes[k]))
      && (forall n, m, x :: x in Q(n).nodes && x in Q(m).nodes ==> n == m)
    }

    ghost predicate Valid()
      reads this, nq, rq, wq, sq, dq, blocks.Values`qNext, blocks.Values`qPrev, blocks.Values`qPrio
    {
      && Separate() && Named() && Disjoint()
      && (forall n :: Q(n).Valid())
    }

    ghost predicate Free(t: Thread)
      reads this, nq, rq, wq, sq, dq
    {
      forall n :: t !in Q(n).nodes
    }

    /** A queue by the names of its threads. */
    ghost function List(n: QueueName): Queue<Tid>
      reads this, nq, rq, wq, sq, dq, blocks.Values`qNext, blocks.Values`qPrev, blocks.Values`qPrio
      requires Valid()
    {
      Names(Q(n).Contents())
    }

    ghost function Blocks(): map<Tid, Tcb>
      reads this, blocks.Values`prio, blocks.Values`state, blocks.Values`joinable, blocks.Values`cancelReq
      reads blocks.Values`cancelEnabled, blocks.Values`cancelAsync, blocks.Values`joinArg, blocks.Values`ring
    {
      map i | i in blocks :: Block(blocks[i])
    }

    constructor ()
      ensures Valid() && blocks == map[] && (forall n :: List(n) == [])
      ensures fresh(nq) && fresh(rq) && fresh(wq) && fresh(sq) && fresh(dq)
    {
      hide PQueue.Valid, PQueue.Contents, Names, Valid, List;
      nq := new PQueue();
      rq := new PQueue();
      wq := new PQueue();
      sq := new PQueue();
      dq := new PQueue();
      blocks := map[];
      new;
      EmptyAtFirst();
    }

    lemma EmptyAtFirst()
      requires blocks == map[] && Separate()
      requires nq.Valid() && rq.Valid() && wq.Valid() && sq.Valid() && dq.Valid()
      requires nq.nodes == [] && rq.nodes == [] && wq.nodes == [] && sq.nodes == [] && dq.nodes == []
      ensures Valid() && forall n :: List(n) == []
    {
      hide PQueue.Valid, PQueue.Contents, Names;
      forall n
        ensures Q(n).Valid() && Q(n).nodes == [] && Q(n).Contents() == []
      {
        Q(n).Extent();
      }
      NamesEmpty();
    }

    lemma NamesEmpty()
      ensures Names([]) == []
    {
    }

    lemma AloneIn(n: QueueName, t: Thread)
      requires Valid() && Here(t)
      ensures Alone(Q(n).Contents(), t)
      ensures t in Q(n).nodes <==> Contains(Q(n).Contents(), t)
      ensures t in Q(n).nodes <==> Contains(List(n), t.id)
    {
      hide PQueue.Valid, Contains, Names, Pair;
      Q(n).Membership(t);
      Q(n).Extent();
      var q := Q(n).Contents();
      forall i | 0 <= i < |q| && q[i].item.id == t.id
        ensures q[i].item == t
      {
        Q(n).At(i);
        assert Here(Q(n).nodes[i]);
      }
      NamesContains(q, t);
    }

    /** The queues whose fields and nodes have not changed are as they were. */
    twostate lemma Others(changed: set<QueueName>)
      requires old(Valid()) && blocks == old(blocks)
      requires forall m :: m !in changed ==>
                 && Q(m).head == old(Q(m).head) && Q(m).num == old(Q(m).num)
                 && Q(m).nodes == old(Q(m).nodes) && Q(m).prios == old(Q(m).prios)
      requires forall m, x :: m !in changed && x in Q(m).nodes ==>
                 x.qNext == old(x.qNext) && x.qPrev == old(x.qPrev) && x.qPrio == old(x.qPrio)
      ensures forall m :: m !in changed ==> Q(m).Valid() && Q(m).Contents() == old(Q(m).Contents())
    {
      hide PQueue.Valid, PQueue.Contents;
      forall m | m !in changed
        ensures Q(m).Valid() && Q(m).Contents() == old(Q(m).Contents())
      {
        Untouched(Q(m));
      }
    }

    lemma Parts()
      requires Valid()
      ensures Separate() && Named() && Disjoint() && forall n :: Q(n).Valid()
    {
      hide PQueue.Valid;
    }

    lemma Whole()
      requires Separate() && Named() && Disjoint() && forall n :: Q(n).Valid()
      ensures Valid()
    {
      hide PQueue.Valid;
    }

    lemma Members()
      requires Disjoint()
      ensures forall n, x :: x in Q(n).nodes ==> Here(x)
      ensures forall n, m, x :: x in Q(n).nodes && x in Q(m).nodes ==> n == m
    {
    }

    /** Insert a thread that is in no queue. */
    method Enqueue(n: QueueName, prio: int, t: Thread)
      requires Valid() && Here(t) && Free(t)
      modifies Q(n), blocks.Values`qNext, blocks.Values`qPrev, blocks.Values`qPrio
      ensures Valid()
      ensures List(n) == Insert(old(List(n)), prio, t.id)
      ensures forall m :: m != n ==> List(m) == old(List(m)) && Q(m).nodes == old(Q(m).nodes)
      ensures forall x :: x in Q(n).nodes <==> x in old(Q(n).nodes) || x == t
    {
      hide PQueue.Valid, PQueue.Contents, Names, Insert, Disjoint, Named, Valid;
      Parts();
      Members();
      InFrame(n);
      NamesInsert(Q(n).Contents(), prio, t);
      Q(n).Insert(prio, t);
      Others({n});
      Rejoined();
      Whole();
    }

    lemma InFrame(n: QueueName)
      requires Disjoint()
      ensures forall k :: 0 <= k < |Q(n).nodes| ==> Q(n).nodes[k] in blocks.Values
    {
      assert forall k :: 0 <= k < |Q(n).nodes| ==> Here(Q(n).nodes[k]);
    }

    lemma Rejoined()
      requires forall n, x :: x in Q(n).nodes ==> Here(x)
      requires forall n, m, x :: x in Q(n).nodes && x in Q(m).nodes ==> n == m
      ensures Disjoint()
    {
      forall n, k | 0 <= k < |Q(n).nodes|
        ensures Here(Q(n).nodes[k])
      {
        assert Q(n).nodes[k] in Q(n).nodes;
      }
    }

    /** Take a member out of its queue; the other queues stay. */
    method Dequeue(n: QueueName, t: Thread)
      requires Valid() && t in Q(n).nodes
      modifies Q(n), blocks.Values`qNext, blocks.Values`qPrev, blocks.Values`qPrio
      ensures Valid() && Here(t) && Free(t)
      ensures Contains(old(List(n)), t.id) && List(n) == Delete(old(List(n)), t.id)
      ensures forall m :: m != n ==> List(m) == old(List(m)) && Q(m).nodes == old(Q(m).nodes)
      ensures forall x :: x in Q(n).nodes <==> x in old(Q(n).nodes) && x != t
    {
      hide PQueue.Valid, PQueue.Contents, Names, Delete, Contains, Disjoint, Named, Valid;
      Parts();
      Members();
      InFrame(n);
      AloneIn(n, t);
      NamesDelete(Q(n).Contents(), t);
      Q(n).Delete(t);
      Others({n});
      Rejoined();
      Whole();
    }

    /** Move a member of a queue to its front. */
    method Prefer(n: QueueName, t: Thread)
      requires Valid() && t in Q(n).nodes
      modifies Q(n), blocks.Values`qNext, blocks.Values`qPrev, blocks.Values`qPrio
      ensures Valid()
      ensures Contains(old(List(n)), t.id) && List(n) == Favorite(old(List(n)), t.id)
      ensures forall m :: m != n ==> List(m) == old(List(m)) && Q(m).nodes == old(Q(m).nodes)
      ensures forall x :: x in Q(n).nodes <==> x in old(Q(n).nodes)
    {
      hide PQueue.Valid, PQueue.Contents, Names, Favorite, Contains, Disjoint, Named, Valid;
      Parts();
      Members();
      InFrame(n);
      AloneIn(n, t);
      NamesFavorite(Q(n).Contents(), t);
      var found := Q(n).Favorite(t);
      Others({n});
      Rejoined();
      Whole();
    }

    /** Everybody in a queue ages. */
    method Age(n: QueueName)
      requires Valid()
      modifies Q(n), blocks.Values`qPrio
      ensures Valid() && List(n) == Increase(old(List(n)))
      ensures forall m :: m != n ==> List(m) == old(List(m))
      ensures forall m :: Q(m).nodes == old(Q(m).nodes)
    {
      hide PQueue.Valid, PQueue.Contents, Names, Increase, Disjoint, Named, Valid;
      Parts();
      Members();
      InFrame(n);
      NamesIncrease(Q(n).Contents());
      Q(n).IncreaseAll();
      Others({n});
      Rejoined();
      Whole();
    }

    /** Take the first thread of a queue, if there is one. */
    method DequeueMax(n: QueueName) returns (t: Thread?)
      requires Valid()
      modifies Q(n), blocks.Values`qNext, blocks.Values`qPrev, blocks.Values`qPrio
      ensures Valid()
      ensures t == null <==> old(List(n)) == []
      ensures t == null ==> List(n) == []
      ensures t != null ==> Here(t) && Free(t) && t.id == old(List(n))[0].item && List(n) == old(List(n))[1..]
      ensures forall m :: m != n ==> List(m) == old(List(m))
    {
      hide PQueue.Valid, PQueue.Contents, Names, Disjoint, Named, Valid, List;
      var first := First(n);
      if first == null {
        t := null;
      } else {
        t := TakeFirst(n);
      }
    }

    method TakeFirst(n: QueueName) returns (t: Thread)
      requires Valid() && List(n) != []
      modifies Q(n), blocks.Values`qNext, blocks.Values`qPrev, blocks.Values`qPrio
      ensures Valid() && Here(t) && Free(t)
      ensures t.id == old(List(n))[0].item && List(n) == old(List(n))[1..]
      ensures forall m :: m != n ==> List(m) == old(List(m))
    {
      hide PQueue.Valid, PQueue.Contents, Names, Valid, Free, Here, Q;
      Parts();
      NamesTail(Q(n).Contents());
      t := PopFirst(n);
    }

    method PopFirst(n: QueueName) returns (t: Thread)
      requires Valid() && Q(n).Valid() && Q(n).Contents() != []
      modifies Q(n), blocks.Values`qNext, blocks.Values`qPrev, blocks.Values`qPrio
      ensures Valid() && Here(t) && Free(t) && forall m :: Q(m).Valid()
      ensures t == old(Q(n).Contents())[0].item && Q(n).Contents() == old(Q(n).Contents())[1..]
      ensures forall m :: m != n ==> Q(m).Contents() == old(Q(m).Contents())
    {
      hide PQueue.Valid, PQueue.Contents, Disjoint, Named, Valid;
      Parts();
      Members();
      InFrame(n);
      t := Q(n).DelMax();
      Others({n});
      Rejoined();
      Whole();
    }

    lemma NamesTail(q: Queue<Thread>)
      ensures q != [] ==> Names(q[1..]) == Names(q)[1..]
      ensures Names(q) == [] <==> q == []
    {
    }

    lemma Ids()
      requires Valid()
      ensures Named()
    {
    }

    // ---- looking at a queue

    method IsIn(n: QueueName, t: Thread) returns (found: bool)
      requires Valid() && Here(t)
      ensures found <==> t in Q(n).nodes
      ensures found <==> Contains(List(n), t.id)
    {
      hide PQueue.Valid, PQueue.Contents, Names, Contains;
      AloneIn(n, t);
      found := Q(n).Has(t);
    }

    method Size(n: QueueName) returns (k: int)
      requires Valid()
      ensures k == |List(n)|
    {
      hide Names;
      Q(n).Extent();
      k := Q(n).num;
    }

    method First(n: QueueName) returns (t: Thread?)
      requires Valid()
      ensures t == null <==> List(n) == []
      ensures t != null ==> Here(t) && t in Q(n).nodes && t.id == List(n)[0].item
    {
      hide Names;
      Q(n).Extent();
      t := Q(n).head;
      if t != null {
        Q(n).At(0);
      }
    }

    method Last(n: QueueName) returns (t: Thread?)
      requires Valid()
      ensures t == null <==> List(n) == []
      ensures t != null ==> Here(t) && t in Q(n).nodes && t.id == List(n)[|List(n)| - 1].item
    {
      hide PQueue.Valid, Names;
      Q(n).Extent();
      t := Q(n).Tail();
      if t != null {
        Q(n).At(|Q(n).nodes| - 1);
      }
    }

    /** The names of all threads in a queue, by one walk around its ring. */
    method Collect(n: QueueName) returns (ids: set<Tid>)
      requires Valid()
      ensures ids == Items(List(n))
    {
      hide PQueue.Valid, PQueue.Contents, Names, Items, Disjoint, Named, Separate;
      Ringed(Q(n));
      Q(n).Extent();
      ghost var q := List(n);
      NoItems<Tid>();
      ids := {};
      var t := Q(n).head;
      ghost var k := 0;
      while t != null
        invariant 0 <= k <= |q| == |Q(n).nodes| && t == if k < |q| then Q(n).nodes[k] else null
        invariant ids == Items(q[..k])
        decreases |q| - k
      {
        Q(n).At(k);
        assert q[..k + 1] == q[..k] + [q[k]];
        Snoc(q[..k], q[k]);
        ids := ids + {t.id};
        t := Q(n).WalkNext(t, k);
        k := k + 1;
      }
      assert q[..k] == q;
    }

    // ---- control blocks

    lemma OtherBlocks(t: Thread, before: map<Tid, Tcb>)
      requires before == Blocks()
      ensures before.Keys == blocks.Keys && forall i :: i in blocks && i != t.id ==> before[i] == Block(blocks[i])
    {
    }

    /** One control block differs from what was. */
    lemma OneBlock(t: Thread, before: map<Tid, Tcb>)
      requires Here(t) && before.Keys == blocks.Keys
      requires forall i :: i in blocks && i != t.id ==> before[i] == Block(blocks[i])
      ensures Blocks() == before[t.id := Block(t)]
    {
    }

    method SetState(t: Thread, state: ThreadState)
      requires Named() && Here(t)
      modifies t`state
      ensures t.state == state
      ensures Blocks() == old(Blocks())[t.id := old(Block(t)).(state := state)]
    {
      hide Blocks;
      ghost var before := Blocks();
      OtherBlocks(t, before);
      t.state := state;
      OneBlock(t, before);
    }

    method SetJoinArg(t: Thread, value: int)
      requires Named() && Here(t)
      modifies t`joinArg
      ensures t.joinArg == value
      ensures Blocks() == old(Blocks())[t.id := old(Block(t)).(joinArg := value)]
    {
      hide Blocks;
      ghost var before := Blocks();
      OtherBlocks(t, before);
      t.joinArg := value;
      OneBlock(t, before);
    }

    method SetCancelReq(t: Thread, req: bool)
      requires Named() && Here(t)
      modifies t`cancelReq
      ensures t.cancelReq == req
      ensures Blocks() == old(Blocks())[t.id := old(Block(t)).(cancelReq := req)]
    {
      hide Blocks;
      ghost var before := Blocks();
      OtherBlocks(t, before);
      t.cancelReq := req;
      OneBlock(t, before);
    }

    method SetEvents(t: Thread, ring: EM.Ring)
      requires Named() && Here(t)
      modifies t`ring
      ensures t.ring == ring
      ensures Blocks() == old(Blocks())[t.id := old(Block(t)).(ring := ring)]
    {
      hide Blocks;
      ghost var before := Blocks();
      OtherBlocks(t, before);
      t.ring := ring;
      OneBlock(t, before);
    }

    /** A detached thread that can be cancelled at any time. */
    method Detach(t: Thread)
      requires Named() && Here(t)
      modifies t`joinable, t`cancelEnabled, t`cancelAsync
      ensures !t.joinable && t.cancelEnabled && t.cancelAsync
      ensures var c := old(Block(t)).(joinable := false, cancelEnabled := true, cancelAsync := true);
              Blocks() == old(Blocks())[t.id := c]
    {
      hide Blocks;
      ghost var before := Blocks();
      OtherBlocks(t, before);
      t.joinable, t.cancelEnabled, t.cancelAsync := false, true, true;
      OneBlock(t, before);
    }

    method SetCancelState(t: Thread, enabled: bool, async: bool)
      requires Named() && Here(t)
      modifies t`cancelEnabled, t`cancelAsync
      ensures t.cancelEnabled == enabled && t.cancelAsync == async
      ensures Blocks() == old(Blocks())[t.id := old(Block(t)).(cancelEnabled := enabled, cancelAsync := async)]
    {
      hide Blocks;
      ghost var before := Blocks();
      OtherBlocks(t, before);
      t.cancelEnabled, t.cancelAsync := enabled, async;
      OneBlock(t, before);
    }

    /** A new control block at an address not in use. */
    method Register(t: Thread)
      requires Valid() && t.id !in blocks
      modifies this
      ensures Valid() && Here(t) && Free(t) && blocks == old(blocks)[t.id := t]
      ensures Blocks() == old(Blocks())[t.id := Block(t)]
      ensures forall n :: List(n) == old(List(n)) && Q(n).nodes == old(Q(n).nodes)
    {
      hide PQueue.Valid, PQueue.Contents, Names, Disjoint;
      Members();
      forall n
        ensures t !in Q(n).nodes
      {
        assert t in Q(n).nodes ==> Here(t);
      }
      blocks := blocks[t.id := t];
      assert forall n :: Q(n).nodes == old(Q(n).nodes);
      forall n, x | x in Q(n).nodes
        ensures Here(x)
      {
        assert old(Here(x));
      }
      Rejoined();
    }

    /** The control block is given back. */
    method Release(t: Thread)
      requires Valid() && Here(t) && Free(t)
      modifies this
      ensures Valid() && blocks == old(blocks) - {t.id}
      ensures Blocks() == old(Blocks()) - {t.id}
      ensures forall n :: List(n) == old(List(n)) && Q(n).nodes == old(Q(n).nodes)
    {
      hide PQueue.Valid, PQueue.Contents, Names, Disjoint;
      Members();
      blocks := blocks - {t.id};
      assert forall n :: Q(n).nodes == old(Q(n).nodes);
      forall n, x | x in Q(n).nodes
        ensures Here(x)
      {
        assert old(Here(x)) && x != t;
      }
      Rejoined();
    }

    // ---- the event manager's two loops

    /** Nobody but the waiting threads ns has new events or a new state. */
    ghost predicate OnlyWaiters(tcbs: map<Tid, Tcb>, ns: seq<Thread>)
      reads this, blocks.Values`ring, blocks.Values`state
    {
      && blocks.Keys == tcbs.Keys
      && forall i :: i in blocks && blocks[i] !in ns ==>
          blocks[i].ring == tcbs[i].ring && blocks[i].state == tcbs[i].state
    }

    /** What the event manager leaves alone in every control block. */
    ghost predicate Steady(tcbs: map<Tid, Tcb>)
      reads this, blocks.Values`prio, blocks.Values`joinable, blocks.Values`cancelReq
      reads blocks.Values`cancelEnabled, blocks.Values`cancelAsync, blocks.Values`joinArg
    {
      forall i :: i in blocks && i in tcbs ==>
        var t, c := blocks[i], tcbs[i];
        Tcb(t.prio, c.state, t.joinable, t.cancelReq, t.cancelEnabled, t.cancelAsync, t.joinArg, c.ring) == c
    }

    lemma NobodyYet(tcbs: map<Tid, Tcb>, ns: seq<Thread>)
      requires tcbs == Blocks()
      ensures OnlyWaiters(tcbs, ns) && Steady(tcbs) && forall x :: Here(x) ==> BaseOf(tcbs)(x) == x.prio
    {
    }

    /** Poll the events of all waiting threads. */
    method PollWaiting(env: EM.Env, polled: EM.Poll, ghost tcbs: map<Tid, Tcb>, ghost ns: seq<Thread>)
      returns (env': EM.Env)
      requires Valid() && ns == Q(WQ).nodes && OnlyWaiters(tcbs, ns)
      modifies blocks.Values`ring
      ensures (env', RingsOf(ns)) == EM.MarkRings(env, old(RingsOf(ns)), polled)
      ensures OnlyWaiters(tcbs, ns) && Valid() && StatesOf(ns) == old(StatesOf(ns))
      ensures forall n :: Q(n).Valid() && Q(n).nodes == old(Q(n).nodes) && Q(n).Contents() == old(Q(n).Contents())
    {
      hide PQueue.Valid, PQueue.Contents, RingsOf, Disjoint, EM.MarkRings;
      InFrame(WQ);
      env' := MarkWaiting(Q(WQ), env, polled);
    }

    /** Move everybody with something to do from the waiting to the ready queue. */
    method SweepWaiting(env: EM.Env, late: map<nat, Status>, ghost tcbs: map<Tid, Tcb>, ghost base: Thread -> int,
                        ghost ts: set<Thread>, ghost ns: seq<Thread>,
                        ghost w: Queue<Thread>, ghost r: Queue<Thread>, ghost rings: seq<EM.Ring>,
                        ghost states: seq<ThreadState>)
      returns (env': EM.Env, visited: seq<Thread>)
      requires Valid() && OnlyWaiters(tcbs, ns) && forall x :: Here(x) ==> base(x) == x.prio
      requires Q(WQ).Valid() && Q(RQ).Valid() && w == Q(WQ).Contents() && r == Q(RQ).Contents()
      requires ns == Q(WQ).nodes && rings == RingsOf(ns) && states == StatesOf(ns)
      requires ts == set x | x in Q(WQ).nodes + Q(RQ).nodes
      modifies Q(WQ), Q(RQ), ts`qNext, ts`qPrev, ts`qPrio, ts`state, ts`ring
      ensures Disjoint() && visited == ns
      ensures forall n :: Q(n).Valid()
      ensures forall n :: n != WQ && n != RQ ==> Q(n).Contents() == old(Q(n).Contents())
      ensures (env', RingsOf(ns)) == EM.CleanRings(env, rings, late)
      ensures var wake := Roused(ns, RingsOf(ns));
              && Q(WQ).Contents() == Keep(w, wake)
              && Q(RQ).Contents() == WakeInto(w, r, wake, base)
              && Decided(ns, |ns|, wake, states)
      ensures OnlyWaiters(tcbs, ns)
    {
      hide PQueue.Valid, PQueue.Contents, RingsOf, StatesOf, Roused, Keep, WakeInto, TwoRings, Disjoint;
      hide EM.CleanRings, OnlyWaiters, Decided, Named, Valid;
      Parts();
      Members();
      TwoQueues(ts);
      assert forall n, x :: n != WQ && n != RQ && x in Q(n).nodes ==> x !in ts;
      env', visited := SweepTwo(env, late, tcbs, base, ts, ns, w, r, rings, states);
      Others({WQ, RQ});
      Reunited(ts);
    }

    /** The sweep, as it is seen by the control blocks. */
    method SweepTwo(env: EM.Env, late: map<nat, Status>, ghost tcbs: map<Tid, Tcb>, ghost base: Thread -> int,
                    ghost ts: set<Thread>, ghost ns: seq<Thread>,
                    ghost w: Queue<Thread>, ghost r: Queue<Thread>, ghost rings: seq<EM.Ring>,
                    ghost states: seq<ThreadState>)
      returns (env': EM.Env, visited: seq<Thread>)
      requires TwoRings(Q(WQ), Q(RQ), ts) && OnlyWaiters(tcbs, ns) && forall x :: x in ts ==> base(x) == x.prio
      requires Q(WQ).Valid() && Q(RQ).Valid() && w == Q(WQ).Contents() && r == Q(RQ).Contents()
      requires ns == Q(WQ).nodes && rings == RingsOf(ns) && states == StatesOf(ns)
      modifies Q(WQ), Q(RQ), ts`qNext, ts`qPrev, ts`qPrio, ts`state, ts`ring
      ensures TwoRings(Q(WQ), Q(RQ), ts) && Q(WQ).Valid() && Q(RQ).Valid() && visited == ns
      ensures (env', RingsOf(ns)) == EM.CleanRings(env, rings, late)
      ensures var wake := Roused(ns, RingsOf(ns));
              && Q(WQ).Contents() == Keep(w, wake)
              && Q(RQ).Contents() == WakeInto(w, r, wake, base)
              && Decided(ns, |ns|, wake, states)
      ensures OnlyWaiters(tcbs, ns)
    {
      hide PQueue.Valid, PQueue.Contents, RingsOf, StatesOf, Roused, Keep, WakeInto, TwoRings, EM.CleanRings, Q;
      env', visited := Sweep(Q(WQ), Q(RQ), ts, env, late, base);
    }

    lemma TwoQueues(ts: set<Thread>)
      requires Valid() && ts == set x | x in Q(WQ).nodes + Q(RQ).nodes
      ensures TwoRings(Q(WQ), Q(RQ), ts)
    {
      hide PQueue.Valid, Disjoint;
      Members();
    }

    /** Disjointness again, when two queues have only exchanged threads. */
    lemma Reunited(ts: set<Thread>)
      requires TwoRings(Q(WQ), Q(RQ), ts)
      requires forall x :: x in ts ==> Here(x)
      requires forall n, x :: n != WQ && n != RQ && x in Q(n).nodes ==> Here(x) && x !in ts
      requires forall n, m, x :: n != WQ && n != RQ && m != WQ && m != RQ && x in Q(n).nodes && x in Q(m).nodes ==>
                 n == m
      ensures Disjoint() && forall x :: x in Q(WQ).nodes || x in Q(RQ).nodes ==> x in ts
    {
      hide PQueue.Valid, Disjoint;
      Rejoined();
    }

    /** Both loops. */
    method EventLoops(env: EM.Env, polled: EM.Poll, late: map<nat, Status>, ghost tcbs: map<Tid, Tcb>,
                      ghost ns: seq<Thread>,
                      ghost w: Queue<Thread>, ghost r: Queue<Thread>, ghost states: seq<ThreadState>,
                      ghost rings: seq<EM.Ring>)
      returns (env': EM.Env, visited: seq<Thread>)
      requires Valid() && tcbs == Blocks() && Steady(tcbs)
      requires Q(WQ).Valid() && Q(RQ).Valid() && w == Q(WQ).Contents() && r == Q(RQ).Contents()
      requires ns == Q(WQ).nodes && rings == RingsOf(ns) && states == StatesOf(ns)
      modifies Q(WQ), Q(RQ), blocks.Values`qNext, blocks.Values`qPrev, blocks.Values`qPrio, blocks.Values`state,
               blocks.Values`ring
      ensures visited == ns && Disjoint()
      ensures forall n :: Q(n).Valid()
      ensures forall n :: n != WQ && n != RQ ==> Q(n).Contents() == old(Q(n).Contents())
      ensures var marked := EM.MarkRings(env, rings, polled);
              (env', RingsOf(ns)) == EM.CleanRings(marked.0, marked.1, late)
      ensures var wake := Roused(ns, RingsOf(ns));
              && Q(WQ).Contents() == Keep(w, wake)
              && Q(RQ).Contents() == WakeInto(w, r, wake, BaseOf(tcbs))
              && Decided(ns, |ns|, wake, states)
      ensures OnlyWaiters(tcbs, ns) && Steady(tcbs)
    {
      hide PQueue.Valid, PQueue.Contents, RingsOf, StatesOf, Roused, Keep, WakeInto, Disjoint, Separate, Named;
      hide OnlyWaiters, Blocks, Steady, Decided, Valid, EM.MarkRings, EM.CleanRings, Q;
      ghost var ts := set x | x in Q(WQ).nodes + Q(RQ).nodes;
      Parts();
      InFrame(WQ);
      InFrame(RQ);
      NobodyYet(tcbs, ns);
      var env1 := PollWaiting(env, polled, tcbs, ns);
      ghost var rings1 := RingsOf(ns);
      env', visited := SweepWaiting(env1, late, tcbs, BaseOf(tcbs), ts, ns, w, r, rings1, states);
    }
  }
}
