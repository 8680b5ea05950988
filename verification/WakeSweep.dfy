/** The wake-up sweep of pth_sched_eventmanager (pth_sched.c): walk the circular
    waiting queue once and move every thread with something to do to the ready
    queue, deleting from the very ring that is being walked. */
module WakeSweep {
  import EM = EventManager
  import opened PthTypes
  import opened Sequences
  import opened PrioritySequence
  import opened ThreadRing
  import opened PQueues

  /** Part-way through: i waiters are decided, the others untouched. */
  ghost function Partial<T>(w: Queue<T>, i: nat, wake: set<T>): Queue<T>
    requires i <= |w|
  {
    Keep(w[..i], wake) + w[i..]
  }

  lemma PartialEnds<T>(w: Queue<T>, r: Queue<T>, wake: set<T>, base: T -> int)
    ensures Partial(w, 0, wake) == w && WakeInto(w[..0], r, wake, base) == r
    ensures Partial(w, |w|, wake) == Keep(w, wake) && w[..|w|] == w
  {
    assert w[..|w|] == w;
  }

  lemma PartialStep<T>(w: Queue<T>, i: nat, wake: set<T>)
    requires Distinct(w) && i < |w|
    ensures var q, t := Partial(w, i, wake), w[i].item;
            && |Keep(w[..i], wake)| < |q| && q[|Keep(w[..i], wake)|] == w[i]
            && Contains(q, t)
            && Partial(w, i + 1, wake) == if t in wake then Delete(q, t) else q
  {
    hide Keep, Distinct, Partial, Contains;
    PartialAt(w, i, wake);
    PartialNext(w, i, wake);
    PartialIndex(w, i, wake);
  }

  lemma PartialNext<T>(w: Queue<T>, i: nat, wake: set<T>)
    requires i < |w| && |Keep(w[..i], wake)| < |Partial(w, i, wake)|
    ensures var q := Partial(w, i, wake);
            Partial(w, i + 1, wake) == if w[i].item in wake then RemoveAt(q, |Keep(w[..i], wake)|) else q
  {
    hide Keep;
    KeepNext(w, i, wake);
    var k := Keep(w[..i], wake);
    assert w[i..] == [w[i]] + w[i + 1..];
    assert Partial(w, i, wake) == k + [w[i]] + w[i + 1..];
  }

  lemma KeepNext<T>(w: Queue<T>, i: nat, wake: set<T>)
    requires i < |w|
    ensures Keep(w[..i + 1], wake) == Keep(w[..i], wake) + if w[i].item in wake then [] else [w[i]]
  {
    assert w[..i + 1][..i] == w[..i];
  }

  lemma PartialIndex<T>(w: Queue<T>, i: nat, wake: set<T>)
    requires Distinct(w) && i < |w|
    ensures var q := Partial(w, i, wake);
            Contains(q, w[i].item) && IndexOf(q, w[i].item) == |Keep(w[..i], wake)|
  {
    hide Keep;
    var q, k := Partial(w, i, wake), |Keep(w[..i], wake)|;
    assert q[k] == w[i];
    KeepFacts(w[..i], wake);
    forall j | 0 <= j < k
      ensures q[j].item != w[i].item
    {
      assert q[j] in Keep(w[..i], wake);
      assert q[j] in w[..i];
    }
  }

  /** Both queues are in order, share no thread, and run through threads of ts. */
  ghost predicate TwoRings(wq: PQueue, rq: PQueue, ts: set<Thread>)
    reads wq, rq, ts
  {
    && wq != rq
    && (forall x :: x in wq.nodes ==> x in ts && x !in rq.nodes)
    && (forall x :: x in rq.nodes ==> x in ts)
    && wq.Valid() && rq.Valid()
  }

  lemma TwoRingsFacts(wq: PQueue, rq: PQueue, ts: set<Thread>)
    requires TwoRings(wq, rq, ts)
    ensures wq.Valid() && rq.Valid() && forall k :: 0 <= k < |wq.nodes| ==> wq.nodes[k] in ts
  {
  }

  /** Move one thread from the waiting to the ready queue. */
  method WakeOne(wq: PQueue, rq: PQueue, ghost ts: set<Thread>, t: Thread)
    requires TwoRings(wq, rq, ts) && t in wq.nodes
    modifies wq, rq, ts`qNext, ts`qPrev, ts`qPrio, t`state
    ensures TwoRings(wq, rq, ts) && wq.Valid() && rq.Valid()
    ensures Contains(old(wq.Contents()), t) && wq.Contents() == Delete(old(wq.Contents()), t)
    ensures rq.Contents() == Insert(old(rq.Contents()), t.prio + 1, t)
    ensures t.state == Ready
  {
    hide Shape, Pair, Contains, Delete, Insert;
    wq.Delete(t);
    Untouched(rq);
    t.state := Ready;
    label moved:
    rq.Insert(t.prio + 1, t);
    Untouched@moved(wq);
  }

  /** Decide one waiter, having first looked up its successor. */
  method SweepOne(wq: PQueue, rq: PQueue, ghost ts: set<Thread>, ghost wake: set<Thread>, t: Thread, woken: bool,
                  ghost w: Queue<Thread>, ghost r: Queue<Thread>, ghost i: nat, ghost base: Thread -> int)
    returns (next: Thread?)
    requires TwoRings(wq, rq, ts) && base(t) == t.prio && (woken <==> t in wake)
    requires Distinct(w) && i < |w| && t == w[i].item
    requires wq.Contents() == Partial(w, i, wake)
    requires rq.Contents() == WakeInto(w[..i], r, wake, base)
    modifies wq, rq, ts`qNext, ts`qPrev, ts`qPrio, t`state
    ensures TwoRings(wq, rq, ts) && wq.Valid() && rq.Valid()
    ensures wq.Contents() == Partial(w, i + 1, wake)
    ensures rq.Contents() == WakeInto(w[..i + 1], r, wake, base)
    ensures next == if i + 1 < |w| then w[i + 1].item else null
    ensures t.state == if woken then Ready else old(t.state)
  {
    hide Shape, Pair, PQueue.Contents, Insert, Delete, Contains, Distinct, Partial, WakeInto, Keep;
    Outline(wq);
    PartialStep(w, i, wake);
    WakeIntoStep(w, r, i, wake, base);
    ghost var k := |Keep(w[..i], wake)|;
    PartialAt(w, i, wake);
    next := wq.WalkNext(t, k);
    if woken {
      WakeOne(wq, rq, ts, t);
    }
  }

  lemma PartialAt<T>(w: Queue<T>, i: nat, wake: set<T>)
    requires i < |w|
    ensures var q, k := Partial(w, i, wake), |Keep(w[..i], wake)|;
            && |q| == k + (|w| - i) && q[k] == w[i]
            && (i + 1 < |w| ==> q[k + 1] == w[i + 1])
  {
    hide Keep;
  }

  lemma WakeIntoStep<T>(w: Queue<T>, r: Queue<T>, i: nat, wake: set<T>, base: T -> int)
    requires i < |w|
    ensures var t := w[i].item;
            WakeInto(w[..i + 1], r, wake, base) ==
            if t in wake then Insert(WakeInto(w[..i], r, wake, base), base(t) + 1, t)
              else WakeInto(w[..i], r, wake, base)
  {
    assert w[..i + 1][..i] == w[..i];
  }

  lemma Outline(q: PQueue)
    requires q.Valid()
    ensures Distinct(q.Contents()) && |q.Contents()| == |q.nodes|
    ensures forall j :: 0 <= j < |q.nodes| ==> q.Contents()[j].item == q.nodes[j]
    ensures q.head == if q.nodes == [] then null else q.nodes[0]
  {
  }

  // ---- the two loops of the event manager

  ghost function RingsOf(ns: seq<Thread>): (rs: seq<EM.Ring>)
    reads ns`ring
    ensures |rs| == |ns|
    ensures forall k :: 0 <= k < |ns| ==> rs[k] == ns[k].ring
  {
    if ns == [] then [] else RingsOf(ns[..|ns| - 1]) + [ns[|ns| - 1].ring]
  }

  /** Who has an event that is no longer pending, or a cancel request. */
  ghost function Roused(ns: seq<Thread>, rings: seq<EM.Ring>): (wake: set<Thread>)
    reads ns`cancelReq
    requires |rings| == |ns|
  {
    set k | 0 <= k < |ns| && (EM.AnyOccurred(rings[k]) || ns[k].cancelReq) :: ns[k]
  }

  lemma RousedAt(ns: seq<Thread>, rings: seq<EM.Ring>, k: nat)
    requires Unique(ns) && |rings| == |ns| && k < |ns|
    ensures ns[k] in Roused(ns, rings) <==> EM.AnyOccurred(rings[k]) || ns[k].cancelReq
  {
    hide EM.AnyOccurred;
  }

  /** The first loop: every waiting thread's ring is polled, in queue order. */
  method MarkWaiting(wq: PQueue, env0: EM.Env, polled: EM.Poll) returns (env: EM.Env)
    requires wq.Valid()
    modifies wq.nodes`ring
    ensures (env, RingsOf(wq.nodes)) == EM.MarkRings(env0, old(RingsOf(wq.nodes)), polled)
  {
    hide PQueue.Valid, Unique, RingsOf, Renewed, EM.MarkRings, EM.MarkAll;
    Ringed(wq);
    ghost var ns, rings := wq.nodes, RingsOf(wq.nodes);
    ghost var final := EM.MarkRings(env0, rings, polled).1;
    env := env0;
    var t := wq.head;
    ghost var i := 0;
    MarkNone(env0, rings, polled);
    RenewedNone(ns, final, rings);
    while t != null
      invariant 0 <= i <= |ns| && t == if i < |ns| then ns[i] else null
      invariant env == EM.MarkRings(env0, rings[..i], polled).0
      invariant Renewed(ns, i, final, rings)
      decreases |ns| - i
    {
      MarkNext(env0, rings, polled, i);
      RenewedAt(ns, i, final, rings);
      var ring;
      env, ring := EM.MarkRing(env, t.ring, polled);
      SetRing(t, ns, i, ring, final, rings);
      t := wq.WalkNext(t, i);
      i := i + 1;
    }
    assert rings[..i] == rings;
    RenewedAll(ns, final, rings);
  }

  /** The first i threads have their later rings, the others still the earlier ones. */
  ghost predicate Renewed(ns: seq<Thread>, i: nat, later: seq<EM.Ring>, earlier: seq<EM.Ring>)
    reads ns`ring
    requires |later| == |earlier| == |ns|
  {
    forall k :: 0 <= k < |ns| ==> ns[k].ring == if k < i then later[k] else earlier[k]
  }

  lemma RenewedNone(ns: seq<Thread>, later: seq<EM.Ring>, earlier: seq<EM.Ring>)
    requires |later| == |earlier| == |ns| && earlier == RingsOf(ns)
    ensures Renewed(ns, 0, later, earlier)
  {
    hide RingsOf;
  }

  lemma RenewedAt(ns: seq<Thread>, i: nat, later: seq<EM.Ring>, earlier: seq<EM.Ring>)
    requires |later| == |earlier| == |ns| && i < |ns| && Renewed(ns, i, later, earlier)
    ensures ns[i].ring == earlier[i]
  {
  }

  lemma RenewedAll(ns: seq<Thread>, later: seq<EM.Ring>, earlier: seq<EM.Ring>)
    requires |later| == |earlier| == |ns| && Renewed(ns, |ns|, later, earlier)
    ensures RingsOf(ns) == later
  {
    hide RingsOf;
  }

  method SetRing(t: Thread, ghost ns: seq<Thread>, ghost i: nat, ring: EM.Ring, ghost later: seq<EM.Ring>,
                 ghost earlier: seq<EM.Ring>)
    requires |later| == |earlier| == |ns| && Unique(ns) && i < |ns| && t == ns[i] && ring == later[i]
    requires Renewed(ns, i, later, earlier)
    modifies t`ring
    ensures Renewed(ns, i + 1, later, earlier)
  {
    t.ring := ring;
  }

  lemma Ringed(q: PQueue)
    requires q.Valid()
    ensures Unique(q.nodes) && q.head == if q.nodes == [] then null else q.nodes[0]
  {
  }

  lemma MarkNone(env: EM.Env, rings: seq<EM.Ring>, polled: EM.Poll)
    ensures EM.MarkRings(env, rings[..0], polled).0 == env
  {
  }

  lemma MarkNext(env: EM.Env, rings: seq<EM.Ring>, polled: EM.Poll, i: nat)
    requires i < |rings|
    ensures var (e, r) := EM.MarkAll(EM.MarkRings(env, rings[..i], polled).0, rings[i], polled);
            e == EM.MarkRings(env, rings[..i + 1], polled).0 && r == EM.MarkRings(env, rings, polled).1[i]
  {
    assert rings[..i + 1][..i] == rings[..i];
    EM.MarkRingsPrefix(env, rings, polled, i + 1);
  }

  lemma CleanNone(env: EM.Env, rings: seq<EM.Ring>, late: map<nat, Status>)
    ensures EM.CleanRings(env, rings[..0], late).0 == env
  {
  }

  lemma CleanNext(env: EM.Env, rings: seq<EM.Ring>, late: map<nat, Status>, i: nat)
    requires i < |rings|
    ensures var (e, r) := EM.CleanAll(EM.CleanRings(env, rings[..i], late).0, rings[i], late);
            e == EM.CleanRings(env, rings[..i + 1], late).0 && r == EM.CleanRings(env, rings, late).1[i]
  {
    assert rings[..i + 1][..i] == rings[..i];
    EM.CleanRingsPrefix(env, rings, late, i + 1);
  }

  /** The second loop.  It deletes from the ring it walks along, yet visits every waiter once, in
      queue order.  Afterwards the waiting queue holds exactly the threads whose events are all
      pending and that are not to be cancelled, and the others are in the ready queue, one above
      their base priority. */
  method Sweep(wq: PQueue, rq: PQueue, ghost ts: set<Thread>, env0: EM.Env, late: map<nat, Status>,
               ghost base: Thread -> int)
    returns (env: EM.Env, visited: seq<Thread>)
    requires TwoRings(wq, rq, ts)
    requires forall x :: x in ts ==> base(x) == x.prio
    modifies wq, rq, ts`qNext, ts`qPrev, ts`qPrio, ts`state, ts`ring
    ensures TwoRings(wq, rq, ts) && wq.Valid() && rq.Valid()
    ensures visited == old(wq.nodes)
    ensures (env, RingsOf(old(wq.nodes))) == EM.CleanRings(env0, old(RingsOf(wq.nodes)), late)
    ensures var wake := Roused(old(wq.nodes), RingsOf(old(wq.nodes)));
            && wq.Contents() == Keep(old(wq.Contents()), wake)
            && rq.Contents() == WakeInto(old(wq.Contents()), old(rq.Contents()), wake, base)
            && forall x :: x in old(wq.nodes) ==> x.state == if x in wake then Ready else old(x.state)
    ensures forall x :: x in ts && x !in old(wq.nodes) ==> x.ring == old(x.ring) && x.state == old(x.state)
  {
    hide TwoRings, PQueue.Valid, Distinct, Unique, Keep, WakeInto, Partial, PQueue.Contents, Roused, RingsOf;
    hide StatesOf, Renewed, Decided;
    hide EM.CleanRings, EM.CleanAll, EM.AnyOccurred;
    TwoRingsFacts(wq, rq, ts);
    ghost var w, r, ns, rings, states := wq.Contents(), rq.Contents(), wq.nodes, RingsOf(wq.nodes), StatesOf(wq.nodes);
    ghost var final := EM.CleanRings(env0, rings, late).1;
    ghost var wake := Roused(ns, final);
    Outline(wq);
    Ringed(wq);
    PartialEnds(w, r, wake, base);
    CleanNone(env0, rings, late);
    RenewedNone(ns, final, rings);
    DecidedNone(ns, wake, states);
    env, visited := env0, [];
    var t := wq.head;
    ghost var i := 0;
    while t != null
      invariant 0 <= i <= |w| && visited == ns[..i]
      invariant t == if i < |w| then ns[i] else null
      invariant TwoRings(wq, rq, ts) && wq.Valid() && rq.Valid()
      invariant wq.Contents() == Partial(w, i, wake)
      invariant rq.Contents() == WakeInto(w[..i], r, wake, base)
      invariant env == EM.CleanRings(env0, rings[..i], late).0
      invariant Renewed(ns, i, final, rings) && Decided(ns, i, wake, states)
      invariant forall x :: x in ts && x !in ns ==> x.ring == old(x.ring) && x.state == old(x.state)
      decreases |w| - i
    {
      assert ns[..i + 1] == ns[..i] + [ns[i]];
      visited := visited + [t];
      env, t := CleanOne(wq, rq, ts, wake, t, w, r, ns, i, base, env, env0, rings, late, states);
      i := i + 1;
    }
    assert ns[..|ns|] == ns && rings[..i] == rings;
    RenewedAll(ns, final, rings);
    DecidedAll(ns, wake, states);
  }

  ghost function StatesOf(ns: seq<Thread>): (ss: seq<ThreadState>)
    reads ns`state
    ensures |ss| == |ns|
    ensures forall k :: 0 <= k < |ns| ==> ss[k] == ns[k].state
  {
    if ns == [] then [] else StatesOf(ns[..|ns| - 1]) + [ns[|ns| - 1].state]
  }

  /** The first i threads have been decided. */
  ghost predicate Decided(ns: seq<Thread>, i: nat, wake: set<Thread>, states: seq<ThreadState>)
    reads ns`state
    requires |states| == |ns|
  {
    forall k :: 0 <= k < |ns| ==> ns[k].state == if k < i && ns[k] in wake then Ready else states[k]
  }

  lemma DecidedNone(ns: seq<Thread>, wake: set<Thread>, states: seq<ThreadState>)
    requires states == StatesOf(ns)
    ensures Decided(ns, 0, wake, states)
  {
    hide StatesOf;
  }

  lemma DecidedAll(ns: seq<Thread>, wake: set<Thread>, states: seq<ThreadState>)
    requires |states| == |ns| && Decided(ns, |ns|, wake, states)
    ensures forall k :: 0 <= k < |ns| ==> ns[k].state == if ns[k] in wake then Ready else states[k]
  {
  }

  /** One turn of the second loop. */
  method CleanOne(wq: PQueue, rq: PQueue, ghost ts: set<Thread>, ghost wake: set<Thread>, t: Thread,
                  ghost w: Queue<Thread>, ghost r: Queue<Thread>, ghost ns: seq<Thread>, ghost i: nat,
                  ghost base: Thread -> int,
                  env: EM.Env, ghost env0: EM.Env, ghost rings: seq<EM.Ring>, late: map<nat, Status>,
                  ghost states: seq<ThreadState>)
    returns (env': EM.Env, next: Thread?)
    requires TwoRings(wq, rq, ts) && base(t) == t.prio
    requires |ns| == |w| == |rings| == |states| && i < |w| && t == w[i].item == ns[i]
    requires Distinct(w) && Unique(ns) && wake == Roused(ns, EM.CleanRings(env0, rings, late).1)
    requires wq.Contents() == Partial(w, i, wake)
    requires rq.Contents() == WakeInto(w[..i], r, wake, base)
    requires env == EM.CleanRings(env0, rings[..i], late).0
    requires Renewed(ns, i, EM.CleanRings(env0, rings, late).1, rings) && Decided(ns, i, wake, states)
    modifies wq, rq, ts`qNext, ts`qPrev, ts`qPrio, t`state, t`ring
    ensures TwoRings(wq, rq, ts) && wq.Valid() && rq.Valid()
    ensures wq.Contents() == Partial(w, i + 1, wake)
    ensures rq.Contents() == WakeInto(w[..i + 1], r, wake, base)
    ensures env' == EM.CleanRings(env0, rings[..i + 1], late).0
    ensures Renewed(ns, i + 1, EM.CleanRings(env0, rings, late).1, rings) && Decided(ns, i + 1, wake, states)
    ensures next == if i + 1 < |w| then w[i + 1].item else null
  {
    hide PQueue.Valid, PQueue.Contents, Distinct, Unique, Partial, WakeInto, Roused, StatesOf, Renewed, Decided;
    hide EM.CleanRings, EM.CleanAll, EM.AnyOccurred;
    ghost var final := EM.CleanRings(env0, rings, late).1;
    CleanNext(env0, rings, late, i);
    RousedAt(ns, final, i);
    RenewedAt(ns, i, final, rings);
    ghost var before := StatesOf(ns);
    DecidedSoFar(ns, i, wake, states, before);
    var ring, any;
    env', ring, any := EM.CleanRing(env, t.ring, late);
    SetRing(t, ns, i, ring, final, rings);
    next := SweepOne(wq, rq, ts, wake, t, any || t.cancelReq, w, r, i, base);
    DecidedNext(ns, i, wake, states, before);
  }

  lemma DecidedSoFar(ns: seq<Thread>, i: nat, wake: set<Thread>, states: seq<ThreadState>, before: seq<ThreadState>)
    requires |states| == |ns| && i <= |ns| && before == StatesOf(ns) && Decided(ns, i, wake, states)
    ensures forall k :: 0 <= k < |ns| ==> before[k] == if k < i && ns[k] in wake then Ready else states[k]
  {
    hide StatesOf;
  }

  lemma DecidedNext(ns: seq<Thread>, i: nat, wake: set<Thread>, states: seq<ThreadState>, before: seq<ThreadState>)
    requires |states| == |before| == |ns| && i < |ns| && Unique(ns)
    requires forall k :: 0 <= k < |ns| ==> before[k] == if k < i && ns[k] in wake then Ready else states[k]
    requires forall k :: 0 <= k < |ns| && ns[k] != ns[i] ==> ns[k].state == before[k]
    requires ns[i].state == if ns[i] in wake then Ready else before[i]
    ensures Decided(ns, i + 1, wake, states)
  {
  }
}
