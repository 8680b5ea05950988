/** The thread queues of libports/pth-2.0.7/pth_pqueue.c: a circular doubly
    linked list through the threads themselves, in which only the head stores an
    absolute priority and every other thread the distance to its predecessor. */
module ThreadRing {
  import EM = EventManager
  import opened PthTypes
  import opened PrioritySequence
  import opened Sequences

  /** A thread control block, as far as the library's queues and calls go.  The id stands for its
      address. */
  class Thread {
    const id: nat
    var qNext: Thread?
    var qPrev: Thread?
    var qPrio: int
    var prio: int
    var state: ThreadState
    var joinable: bool
    var cancelReq: bool
    var cancelEnabled: bool
    var cancelAsync: bool
    var joinArg: int
    var ring: EM.Ring

    constructor (id: nat, prio: int, state: ThreadState, joinable: bool, cancelEnabled: bool, cancelAsync: bool)
      ensures this.id == id && this.prio == prio && this.state == state && this.joinable == joinable
      ensures this.cancelEnabled == cancelEnabled && this.cancelAsync == cancelAsync
      ensures !cancelReq && joinArg == 0 && ring == []
    {
      this.id, this.prio, this.state, this.joinable := id, prio, state, joinable;
      this.cancelEnabled, this.cancelAsync := cancelEnabled, cancelAsync;
      cancelReq, joinArg, ring := false, 0, [];
      qNext, qPrev, qPrio := null, null, 0;
    }
  }

  /** The threads ns form one ring, in this order. */
  ghost predicate Linked(ns: seq<Thread>)
    reads ns`qNext, ns`qPrev
  {
    && (forall i {:trigger ns[i].qNext} :: 0 <= i < |ns| - 1 ==> ns[i].qNext == ns[i + 1])
    && (forall i {:trigger ns[i].qPrev} :: 0 < i < |ns| ==> ns[i].qPrev == ns[i - 1])
    && (ns != [] ==> ns[|ns| - 1].qNext == ns[0] && ns[0].qPrev == ns[|ns| - 1])
  }

  /** The stored priorities of ns are the head's value and the descents of ps. */
  ghost predicate Encoded(ns: seq<Thread>, ps: seq<int>)
    reads ns`qPrio
    requires |ns| == |ps|
  {
    && (ns != [] ==> ns[0].qPrio == ps[0])
    && (forall i {:trigger ns[i].qPrio} :: 0 < i < |ns| ==> ns[i].qPrio == ps[i - 1] - ps[i])
  }

  ghost predicate Descending(ps: seq<int>) {
    forall i, j :: 0 <= i < j < |ps| ==> ps[i] >= ps[j]
  }

  ghost function Pair(ns: seq<Thread>, ps: seq<int>): (q: Queue<Thread>)
    requires |ns| == |ps|
    ensures |q| == |ns|
    ensures forall i :: 0 <= i < |q| ==> q[i] == Entry(ns[i], ps[i])
  {
    seq(|ns|, i requires 0 <= i < |ns| => Entry(ns[i], ps[i]))
  }

  lemma PairInsert(ns: seq<Thread>, ps: seq<int>, k: nat, t: Thread, prio: int)
    requires |ns| == |ps| && k <= |ns|
    ensures Pair(InsertAt(ns, k, t), InsertAt(ps, k, prio)) ==
            InsertAt(Pair(ns, ps), k, Entry(t, prio))
  {
  }

  lemma InsertDescending(ns: seq<Thread>, ps: seq<int>, prio: int)
    requires |ns| == |ps| && Descending(ps)
    ensures Descending(InsertAt(ps, Position(Pair(ns, ps), prio), prio))
  {
    var k := Position(Pair(ns, ps), prio);
    assert k < |ns| ==> Pair(ns, ps)[k].prio < prio;
    forall i | 0 <= i < k
      ensures ps[i] >= prio
    {
      assert Pair(ns, ps)[i].prio >= prio;
    }
  }

  /** A ring is a ring from any of its members: the last one may be read first. */
  lemma Rotated(ns: seq<Thread>, t: Thread)
    requires Linked(InsertAt(ns, |ns|, t)) && Unique(InsertAt(ns, |ns|, t)) && ns != []
    ensures Linked(InsertAt(ns, 0, t)) && Unique(InsertAt(ns, 0, t))
  {
    var r, r' := InsertAt(ns, |ns|, t), InsertAt(ns, 0, t);
    assert forall i :: 0 < i < |r'| ==> r'[i] == r[i - 1];
    assert r'[0] == r[|r| - 1];
  }

  /** Put t into a ring directly behind c, its k-th member. */
  method Splice(ghost ns: seq<Thread>, ghost k: nat, c: Thread, t: Thread)
    requires Linked(ns) && Unique(ns) && t !in ns && 0 < k <= |ns| && c == ns[k - 1]
    modifies ns`qNext, ns`qPrev, t`qNext, t`qPrev
    ensures Linked(InsertAt(ns, k, t)) && Unique(InsertAt(ns, k, t))
    ensures t.qNext == old(c.qNext)
  {
    t.qPrev := c;
    t.qNext := c.qNext;
    t.qPrev.qNext := t;
    t.qNext.qPrev := t;
  }

  /** Take the k-th member t out of a ring of at least two. */
  method Unsplice(ghost ns: seq<Thread>, ghost k: nat, t: Thread)
    requires Linked(ns) && Unique(ns) && k < |ns| && |ns| > 1 && t == ns[k]
    modifies ns`qNext, ns`qPrev
    ensures Linked(RemoveAt(ns, k)) && Unique(RemoveAt(ns, k))
    ensures t.qNext == old(t.qNext)
  {
    t.qPrev.qNext := t.qNext;
    t.qNext.qPrev := t.qPrev;
  }

  /** The newcomer t stores its own descent d and its follower the rest of the old one. */
  method SplitDelta(ghost ns: seq<Thread>, ghost ps: seq<int>, ghost k: nat, head: Thread, t: Thread, d: int)
    requires Linked(ns) && Unique(ns) && |ps| == |ns|
    requires 0 < k < |ns| && t == ns[k] && head == ns[0] && d == ps[k - 1] - ps[k]
    requires ns[0].qPrio == ps[0]
    requires forall i {:trigger ns[i].qPrio} :: 0 < i < |ns| && i != k && i != k + 1 ==>
               ns[i].qPrio == ps[i - 1] - ps[i]
    requires k + 1 < |ns| ==> ns[k + 1].qPrio == ps[k - 1] - ps[k + 1]
    modifies ns`qPrio
    ensures Encoded(ns, ps) && Linked(ns)
  {
    t.qPrio := d;
    if t.qNext != head {
      t.qNext.qPrio := t.qNext.qPrio - t.qPrio;
    }
  }

  /** The new head t stores its absolute priority and the old head a descent. */
  method FrontDelta(ghost ns: seq<Thread>, ghost ps: seq<int>, t: Thread, prio: int)
    requires Linked(ns) && Unique(ns) && |ps| == |ns| > 1 && t == ns[0] && prio == ps[0]
    requires ns[1].qPrio == ps[1]
    requires forall i {:trigger ns[i].qPrio} :: 1 < i < |ns| ==> ns[i].qPrio == ps[i - 1] - ps[i]
    modifies ns`qPrio
    ensures Encoded(ns, ps) && Linked(ns)
  {
    t.qPrio := prio;
    t.qNext.qPrio := prio - t.qNext.qPrio;
  }

  ghost predicate Shape(head: Thread?, ns: seq<Thread>, ps: seq<int>)
    reads ns`qNext, ns`qPrev, ns`qPrio
  {
    && |ns| == |ps|
    && (head == if ns == [] then null else ns[0])
    && Unique(ns) && Linked(ns)
    && Descending(ps) && Encoded(ns, ps)
  }

  ghost function Raised(ps: seq<int>): (r: seq<int>)
    ensures |r| == |ps| && forall i :: 0 <= i < |r| ==> r[i] == ps[i] + 1
  {
    seq(|ps|, i requires 0 <= i < |ps| => ps[i] + 1)
  }

  lemma RaisedPair(ns: seq<Thread>, ps: seq<int>)
    requires |ns| == |ps|
    ensures Pair(ns, Raised(ps)) == Increase(Pair(ns, ps))
  {
    hide Raised;
    var a, b := Pair(ns, Raised(ps)), Increase(Pair(ns, ps));
    forall i | 0 <= i < |a|
      ensures a[i] == b[i]
    {
    }
  }

  /** All absolute priorities rise when the head's does. */
  method RaiseHead(ghost ns: seq<Thread>, ghost ps: seq<int>, head: Thread)
    requires Shape(head, ns, ps) && ns != []
    modifies head`qPrio
    ensures Shape(head, ns, Raised(ps))
  {
    hide Linked, Raised;
    head.qPrio := head.qPrio + 1;
  }

  /** Walk behind the last thread of at least the given priority. */
  method Descend(ghost ns: seq<Thread>, ghost ps: seq<int>, ghost k: nat, head: Thread, prio: int)
    returns (c: Thread, p: int)
    requires Shape(head, ns, ps) && ps[0] >= prio && k == Position(Pair(ns, ps), prio)
    ensures 0 < k <= |ns| && c == ns[k - 1] && p == ps[k - 1]
  {
    ghost var i := 1;
    c, p := head, head.qPrio;
    while p - c.qNext.qPrio >= prio && c.qNext != head
      invariant 1 <= i <= |ns|
      invariant c == ns[i - 1] && p == ps[i - 1]
      invariant ps[i - 1] >= prio
      decreases |ns| - i
    {
      c := c.qNext;
      p := p - c.qPrio;
      i := i + 1;
    }
    assert Pair(ns, ps)[i - 1].prio >= prio;
    assert i < |ns| ==> Pair(ns, ps)[i].prio < prio;
    assert k < |ns| ==> Pair(ns, ps)[k].prio < prio;
  }

  method InsertFirst(prio: int, t: Thread)
    modifies t`qNext, t`qPrev, t`qPrio
    ensures Shape(t, InsertAt([], 0, t), InsertAt([], 0, prio))
  {
    t.qPrev, t.qNext, t.qPrio := t, t, prio;
  }

  /** A newcomer above the head becomes the head and makes the old head a delta. */
  method InsertHead(ghost ns: seq<Thread>, ghost ps: seq<int>, head: Thread, prio: int, t: Thread)
    requires Shape(head, ns, ps) && t !in ns && ps[0] < prio
    modifies ns`qNext, ns`qPrev, ns`qPrio, t`qNext, t`qPrev, t`qPrio
    ensures Shape(t, InsertAt(ns, 0, t), InsertAt(ps, 0, prio))
  {
    ghost var ns', ps' := InsertAt(ns, 0, t), InsertAt(ps, 0, prio);
    assert head.qPrev == ns[|ns| - 1] && head.qPrio == ps[0];
    forall i | 1 < i < |ns'|
      ensures ns'[i].qPrio == ps'[i - 1] - ps'[i]
    {
      assert ns'[i] == ns[i - 1];
    }
    hide Linked, Unique;
    Splice(ns, |ns|, head.qPrev, t);
    Rotated(ns, t);
    assert ns'[1] == head;
    FrontDelta(ns', ps', t, prio);
  }

  /** A newcomer goes directly behind c, the k-th thread, whose priority is p. */
  method InsertBehind(ghost ns: seq<Thread>, ghost ps: seq<int>, ghost k: nat,
                      head: Thread, c: Thread, p: int, prio: int, t: Thread)
    requires Shape(head, ns, ps) && t !in ns && 0 < k <= |ns| && c == ns[k - 1] && p == ps[k - 1]
    requires Descending(InsertAt(ps, k, prio))
    modifies ns`qNext, ns`qPrev, ns`qPrio, t`qNext, t`qPrev, t`qPrio
    ensures Shape(head, InsertAt(ns, k, t), InsertAt(ps, k, prio))
  {
    hide Linked, Unique, Descending, Encoded;
    Splice(ns, k, c, t);
    DeltasAround(ns, ps, k, t, prio);
    SplitDelta(InsertAt(ns, k, t), InsertAt(ps, k, prio), k, head, t, p - prio);
  }

  /** The stored descents around a thread that has been linked in but not yet given its own. */
  lemma DeltasAround(ns: seq<Thread>, ps: seq<int>, k: nat, t: Thread, prio: int)
    requires |ns| == |ps| && 0 < k <= |ns| && Encoded(ns, ps)
    ensures var ns', ps' := InsertAt(ns, k, t), InsertAt(ps, k, prio);
            && ns'[0] == ns[0] && ns'[0].qPrio == ps'[0]
            && (forall i {:trigger ns'[i].qPrio} :: 0 < i < |ns'| && i != k && i != k + 1 ==>
                ns'[i].qPrio == ps'[i - 1] - ps'[i])
            && (k + 1 < |ns'| ==> ns'[k + 1].qPrio == ps'[k - 1] - ps'[k + 1])
  {
    var ns', ps' := InsertAt(ns, k, t), InsertAt(ps, k, prio);
    forall i | 0 < i < |ns'| && i != k && i != k + 1
      ensures ns'[i].qPrio == ps'[i - 1] - ps'[i]
    {
      assert ns'[i] == if i < k then ns[i] else ns[i - 1];
    }
    assert k < |ns| ==> ns'[k + 1] == ns[k];
  }

  method InsertBelow(ghost ns: seq<Thread>, ghost ps: seq<int>, ghost k: nat, head: Thread, prio: int, t: Thread)
    requires Shape(head, ns, ps) && t !in ns && ps[0] >= prio && k == Position(Pair(ns, ps), prio)
    modifies ns`qNext, ns`qPrev, ns`qPrio, t`qNext, t`qPrev, t`qPrio
    ensures Shape(head, InsertAt(ns, k, t), InsertAt(ps, k, prio))
  {
    InsertDescending(ns, ps, prio);
    var c, p := Descend(ns, ps, k, head, prio);
    InsertBehind(ns, ps, k, head, c, p, prio, t);
  }

  method InsertThread(ghost ns: seq<Thread>, ghost ps: seq<int>, ghost k: nat, head: Thread?, prio: int, t: Thread)
    returns (h: Thread)
    requires Shape(head, ns, ps) && t !in ns && k == Position(Pair(ns, ps), prio)
    modifies ns`qNext, ns`qPrev, ns`qPrio, t`qNext, t`qPrev, t`qPrio
    ensures Shape(h, InsertAt(ns, k, t), InsertAt(ps, k, prio))
  {
    if head == null {
      InsertFirst(prio, t);
      h := t;
    } else if head.qPrio < prio {
      InsertHead(ns, ps, head, prio, t);
      h := t;
    } else {
      InsertBelow(ns, ps, k, head, prio, t);
      h := head;
    }
  }

  lemma PairRemove(ns: seq<Thread>, ps: seq<int>, k: nat)
    requires |ns| == |ps| && k < |ns|
    ensures Pair(RemoveAt(ns, k), RemoveAt(ps, k)) == RemoveAt(Pair(ns, ps), k)
    ensures Unique(ns) ==> Contains(Pair(ns, ps), ns[k]) && Delete(Pair(ns, ps), ns[k]) == RemoveAt(Pair(ns, ps), k)
  {
    if Unique(ns) {
      DeleteAt(Pair(ns, ps), ns[k], k);
    }
  }

  lemma RemoveMembers(ns: seq<Thread>, k: nat)
    requires Unique(ns) && k < |ns|
    ensures forall x :: x in RemoveAt(ns, k) <==> x in ns && x != ns[k]
  {
    var r := RemoveAt(ns, k);
    forall i | 0 <= i < |ns| && i != k
      ensures ns[i] in r
    {
      assert r[if i < k then i else i - 1] == ns[i];
    }
  }

  lemma InsertMembers(ns: seq<Thread>, k: nat, t: Thread)
    requires k <= |ns|
    ensures forall x :: x in InsertAt(ns, k, t) <==> x in ns || x == t
  {
    var r := InsertAt(ns, k, t);
    assert r[k] == t;
    forall i | 0 <= i < |ns|
      ensures ns[i] in r
    {
      assert r[if i < k then i else i + 1] == ns[i];
    }
  }

  lemma RemoveDescending(ps: seq<int>, k: nat)
    requires k < |ps| && Descending(ps)
    ensures Descending(RemoveAt(ps, k))
  {
  }

  /** Take the head off a ring of at least two; the next thread turns its descent
      back into an absolute priority. */
  method RemoveHead(ghost ns: seq<Thread>, ghost ps: seq<int>, t: Thread)
    requires Shape(t, ns, ps) && |ns| > 1
    modifies ns`qNext, ns`qPrev, ns`qPrio
    ensures Shape(t.qNext, RemoveAt(ns, 0), RemoveAt(ps, 0)) && t.qNext == old(t.qNext)
  {
    Unsplice(ns, 0, t);
    t.qNext.qPrio := t.qPrio - t.qNext.qPrio;
    t.qPrio := 0;
  }

  /** Take a thread other than the head out; its follower takes over its descent. */
  method RemoveInner(ghost ns: seq<Thread>, ghost ps: seq<int>, ghost k: nat, head: Thread, t: Thread)
    requires Shape(head, ns, ps) && 0 < k < |ns| && t == ns[k]
    modifies ns`qNext, ns`qPrev, ns`qPrio
    ensures Shape(head, RemoveAt(ns, k), RemoveAt(ps, k))
  {
    ghost var ns', ps' := RemoveAt(ns, k), RemoveAt(ps, k);
    RemoveDescending(ps, k);
    Unsplice(ns, k, t);
    assert k + 1 < |ns| ==> ns'[k] == ns[k + 1] == t.qNext;
    MergeDelta(ns', ps', k, head, t);
  }

  method MergeDelta(ghost ns: seq<Thread>, ghost ps: seq<int>, ghost k: nat, head: Thread, t: Thread)
    requires Linked(ns) && Unique(ns) && |ns| == |ps| && 0 < k <= |ns| && t !in ns
    requires head == ns[0] && t.qNext == if k < |ns| then ns[k] else head
    requires ns[0].qPrio == ps[0]
    requires forall i {:trigger ns[i].qPrio} :: 0 < i < |ns| && i != k ==> ns[i].qPrio == ps[i - 1] - ps[i]
    requires k < |ns| ==> ns[k].qPrio + t.qPrio == ps[k - 1] - ps[k]
    modifies ns`qPrio, t`qPrio
    ensures Encoded(ns, ps) && Linked(ns)
  {
    if t.qNext != head {
      t.qNext.qPrio := t.qNext.qPrio + t.qPrio;
    }
    t.qPrio := 0;
  }

  method RemoveThread(ghost ns: seq<Thread>, ghost ps: seq<int>, ghost k: nat, head: Thread, t: Thread)
    returns (h: Thread?)
    requires Shape(head, ns, ps) && k < |ns| && t == ns[k]
    modifies ns`qNext, ns`qPrev, ns`qPrio
    ensures Shape(h, RemoveAt(ns, k), RemoveAt(ps, k))
  {
    if head == t {
      if t.qNext == t {
        t.qNext, t.qPrev, t.qPrio := null, null, 0;
        h := null;
      } else {
        h := t.qNext;
        RemoveHead(ns, ps, t);
      }
    } else {
      h := head;
      RemoveInner(ns, ps, k, head, t);
    }
  }
}

module PQueues {
  import opened PrioritySequence
  import opened Sequences
  import opened ThreadRing

  class PQueue {
    var head: Thread?
    var num: int
    ghost var nodes: seq<Thread>
    ghost var prios: seq<int>

    ghost predicate Valid()
      reads `head, `num, `nodes, `prios, nodes`qNext, nodes`qPrev, nodes`qPrio
    {
      num == |nodes| && Shape(head, nodes, prios)
    }

    ghost function Contents(): (q: Queue<Thread>)
      reads `head, `num, `nodes, `prios, nodes`qNext, nodes`qPrev, nodes`qPrio
      requires Valid()
    {
      Pair(nodes, prios)
    }

    constructor ()
      ensures Valid() && nodes == []
    {
      head, num, nodes, prios := null, 0, [], [];
    }

    method Insert(prio: int, t: Thread)
      requires Valid() && t !in nodes
      modifies this, nodes`qNext, nodes`qPrev, nodes`qPrio, t`qNext, t`qPrev, t`qPrio
      ensures Valid()
      ensures Contents() == PrioritySequence.Insert(old(Contents()), prio, t)
      ensures forall x :: x in nodes <==> x in old(nodes) || x == t
    {
      hide Linked, Encoded, Unique, Descending, Pair, Position;
      ghost var ns, ps := nodes, prios;
      ghost var k := Position(Pair(ns, ps), prio);
      PairInsert(ns, ps, k, t, prio);
      InsertMembers(ns, k, t);
      nodes, prios, num := InsertAt(ns, k, t), InsertAt(ps, k, prio), num + 1;
      head := InsertThread(ns, ps, k, head, prio, t);
    }

    /** The thread has to be a member, unless the queue is empty. */
    method Delete(t: Thread)
      requires Valid() && (t in nodes || nodes == [])
      modifies this, nodes`qNext, nodes`qPrev, nodes`qPrio
      ensures Valid()
      ensures old(nodes) == [] ==> Contents() == old(Contents())
      ensures old(nodes) != [] ==>
                Contains(old(Contents()), t) && Contents() == PrioritySequence.Delete(old(Contents()), t)
      ensures forall x :: x in nodes <==> x in old(nodes) && x != t
    {
      hide Linked, Encoded, Unique, Descending;
      hide Contains, PrioritySequence.Delete;
      if head == null {
        return;
      }
      ghost var ns, ps := nodes, prios;
      ghost var k :| 0 <= k < |ns| && ns[k] == t;
      PairRemove(ns, ps, k);
      RemoveMembers(ns, k);
      nodes, prios, num := RemoveAt(ns, k), RemoveAt(ps, k), num - 1;
      head := RemoveThread(ns, ps, k, head, t);
    }

    method DelMax() returns (t: Thread?)
      requires Valid()
      modifies this, nodes`qNext, nodes`qPrev, nodes`qPrio
      ensures Valid()
      ensures old(Contents()) == [] ==> t == null && Contents() == []
      ensures old(Contents()) != [] ==> t == old(Contents())[0].item && Contents() == old(Contents())[1..]
      ensures old(Contents()) == [] ==> nodes == []
      ensures old(Contents()) != [] ==> t != null && forall x :: x in nodes <==> x in old(nodes) && x != t
      ensures old(Contents()) != [] ==> t in old(nodes)
    {
      hide Linked, Encoded, Unique, Descending, Pair;
      Extent();
      if head == null {
        t := null;
      } else {
        t := head;
        ghost var ns, ps := nodes, prios;
        FirstOff(ns, ps);
        RemoveMembers(ns, 0);
        nodes, prios, num := RemoveAt(ns, 0), RemoveAt(ps, 0), num - 1;
        head := RemoveThread(ns, ps, 0, t, t);
      }
    }

    lemma FirstOff(ns: seq<Thread>, ps: seq<int>)
      requires |ns| == |ps| && ns != []
      ensures Pair(RemoveAt(ns, 0), RemoveAt(ps, 0)) == Pair(ns, ps)[1..]
      ensures Pair(ns, ps)[0].item == ns[0] && ns[0] in ns
    {
      PairRemove(ns, ps, 0);
      assert RemoveAt(Pair(ns, ps), 0) == Pair(ns, ps)[1..];
    }

    method Favorite(t: Thread) returns (found: bool)
      requires Valid() && (t in nodes || |nodes| <= 1)
      modifies this, nodes`qNext, nodes`qPrev, nodes`qPrio
      ensures Valid() && (found <==> old(nodes) != [])
      ensures t !in old(nodes) ==> Contents() == old(Contents())
      ensures t in old(nodes) ==>
                Contains(old(Contents()), t) && Contents() == PrioritySequence.Favorite(old(Contents()), t)
      ensures forall x :: x in nodes <==> x in old(nodes)
    {
      hide Shape, Pair, Contains;
      Extent();
      if head == null || num == 0 {
        return false;
      }
      if t in nodes {
        Membership(t);
      }
      if num == 1 {
        return true;
      }
      ToFront(t);
      return true;
    }

    /** Delete and reinsert above the new head. */
    method ToFront(t: Thread)
      requires Valid() && t in nodes
      modifies this, nodes`qNext, nodes`qPrev, nodes`qPrio
      ensures Valid() && Contains(old(Contents()), t)
      ensures var q := PrioritySequence.Delete(old(Contents()), t);
              Contents() == PrioritySequence.Insert(q, PrioritySequence.FavoritePrio(q), t)
      ensures forall x :: x in nodes <==> x in old(nodes)
    {
      hide Valid, Contents;
      hide Contains, Position, IndexOf, PrioritySequence.Delete, PrioritySequence.Insert, PrioritySequence.FavoritePrio;
      Delete(t);
      assert forall i :: 0 <= i < |nodes| ==> nodes[i] in old(nodes);
      var p := FavoritePrio();
      Insert(p, t);
    }

    lemma Extent()
      requires Valid()
      ensures head == null <==> nodes == []
      ensures num == |nodes| == |Contents()|
    {
    }

    lemma At(k: nat)
      requires Valid() && k < |nodes|
      ensures k < |Contents()| && Contents()[k].item == nodes[k]
    {
    }

    lemma Membership(t: Thread)
      requires Valid()
      ensures t in nodes <==> Contains(Contents(), t)
    {
      hide Shape, Pair;
      if t in nodes {
        assert Contents()[Find(t)].item == t;
      }
      if Contains(Contents(), t) {
        var k :| 0 <= k < |Contents()| && Contents()[k].item == t;
        assert nodes[k] == t;
      }
    }

    method FavoritePrio() returns (p: int)
      requires Valid()
      ensures p == PrioritySequence.FavoritePrio(Contents())
    {
      hide Linked, Unique, Descending;
      p := if head != null then head.qPrio + 1 else PRIO_MAX;
    }

    /** Where a member stands. */
    ghost function Find(t: Thread): (k: nat)
      reads this
      requires t in nodes
      ensures k < |nodes| && nodes[k] == t
    {
      var k :| 0 <= k < |nodes| && nodes[k] == t;
      k
    }

    method IncreaseAll()
      requires Valid()
      modifies this, nodes`qPrio
      ensures Valid()
      ensures Contents() == Increase(old(Contents())) && nodes == old(nodes)
    {
      hide Linked, Encoded, Unique, Descending, Pair, Increase;
      Extent();
      RaisedPair(nodes, prios);
      if head != null {
        ghost var ps := prios;
        prios := Raised(ps);
        RaiseHead(nodes, ps, head);
      } else {
        assert Raised(prios) == prios;
      }
    }

    method Tail() returns (t: Thread?)
      requires Valid()
      ensures t == if Contents() == [] then null else Contents()[|Contents()| - 1].item
    {
      t := if head == null then null else head.qPrev;
    }

    method WalkNext(t: Thread, ghost k: nat) returns (tn: Thread?)
      requires Valid() && k < |nodes| && t == nodes[k]
      ensures tn == if k + 1 < |nodes| then nodes[k + 1] else null
    {
      tn := t.qNext;
      if tn == head {
        tn := null;
      }
    }

    method WalkPrev(t: Thread, ghost k: nat) returns (tn: Thread?)
      requires Valid() && k < |nodes| && t == nodes[k]
      ensures tn == if k > 0 then nodes[k - 1] else null
    {
      tn := if t != head then t.qPrev else null;
    }

    /** The membership test walks the ring once and stops. */
    method Has(t: Thread) returns (found: bool)
      requires Valid()
      ensures found == Contains(Contents(), t)
    {
      ghost var k := 0;
      var tc := head;
      while tc != null
        invariant 0 <= k <= |nodes|
        invariant tc == if k < |nodes| then nodes[k] else null
        invariant forall i :: 0 <= i < k ==> nodes[i] != t
        decreases |nodes| - k
      {
        if tc == t {
          assert Contents()[k].item == t;
          return true;
        }
        tc := WalkNext(tc, k);
        k := k + 1;
      }
      return false;
    }
  }

  /** A queue is as it was when its own fields and the links of its threads are. */
  twostate lemma Untouched(q: PQueue)
    requires old(q.Valid())
    requires q.head == old(q.head) && q.num == old(q.num) && q.nodes == old(q.nodes) && q.prios == old(q.prios)
    requires forall x :: x in q.nodes ==>
      x.qNext == old(x.qNext) && x.qPrev == old(x.qPrev) && x.qPrio == old(x.qPrio)
    ensures q.Valid() && q.Contents() == old(q.Contents())
  {
    assert Linked(q.nodes) && Encoded(q.nodes, q.prios);
  }
}
