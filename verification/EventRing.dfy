/** Event rings of libports/pth-2.0.7/pth_event.c: circular doubly linked lists of events
    that are joined, taken apart and walked by relinking. */
module EventLinks {
  import opened PthTypes
  import opened Sequences

  class Event {
    var next: Event?
    var prev: Event?
    var status: Status

    constructor ()
      ensures next == this && prev == this && status == Pending
    {
      next, prev, status := this, this, Pending;
    }
  }

  /** The events are linked to their neighbours in this order, with open ends. */
  ghost predicate Chain(es: seq<Event>)
    reads es`next, es`prev
  {
    && (forall i {:trigger es[i].next} :: 0 <= i < |es| - 1 ==> es[i].next == es[i + 1])
    && (forall i {:trigger es[i].prev} :: 0 < i < |es| ==> es[i].prev == es[i - 1])
  }

  /** The events form a ring, in this order. */
  ghost predicate Ring(es: seq<Event>)
    reads es`next, es`prev
  {
    && es != [] && Unique(es) && Chain(es)
    && es[|es| - 1].next == es[0] && es[0].prev == es[|es| - 1]
  }

  ghost function Flat(rings: seq<seq<Event>>): seq<Event> {
    if rings == [] then [] else Flat(rings[..|rings| - 1]) + rings[|rings| - 1]
  }

  /** Hang ring r behind the open chain c. */
  method Attach(ghost c: seq<Event>, ghost r: seq<Event>, evc: Event, evn: Event) returns (last: Event)
    requires c != [] && Chain(c) && Ring(r) && Unique(c + r)
    requires evc == c[|c| - 1] && evn == r[0]
    modifies evc`next, evn`prev
    ensures Chain(c + r) && last == (c + r)[|c + r| - 1]
  {
    assert forall i :: 0 <= i < |c| ==> (c + r)[i] == c[i];
    assert forall i :: 0 <= i < |r| ==> (c + r)[|c| + i] == r[i];
    evc.next := evn;
    last := evn.prev;
    evn.prev := evc;
    assert forall i {:trigger r[i].next} :: 0 <= i < |r| - 1 ==> r[i].next == r[i + 1];
    assert forall i {:trigger r[i].prev} :: 0 < i < |r| ==> r[i].prev == r[i - 1];
  }

  /** Close the ring of chain c and the old rest of the first ring. */
  method Close(ghost c: seq<Event>, ghost rest: seq<Event>, evc: Event, evl: Event)
    requires c != [] && Chain(c) && Chain(rest) && Unique(c + rest)
    requires evc == c[|c| - 1] && evl == (if rest == [] then c[0] else rest[0])
    requires rest != [] ==> rest[|rest| - 1].next == c[0] && c[0].prev == rest[|rest| - 1]
    modifies evc`next, evl`prev
    ensures Ring(c + rest)
  {
    assert forall i :: 0 <= i < |c| ==> (c + rest)[i] == c[i];
    assert forall i :: 0 <= i < |rest| ==> (c + rest)[|c| + i] == rest[i];
    evc.next := evl;
    evl.prev := evc;
    assert forall i {:trigger c[i].next} :: 0 <= i < |c| - 1 ==> c[i].next == c[i + 1];
    assert forall i {:trigger c[i].prev} :: 0 < i < |c| ==> c[i].prev == c[i - 1];
    assert forall i {:trigger rest[i].next} :: 0 <= i < |rest| - 1 ==> rest[i].next == rest[i + 1];
    assert forall i {:trigger rest[i].prev} :: 0 < i < |rest| ==> rest[i].prev == rest[i - 1];
  }
}

module EventRings {
  import opened PthTypes
  import opened Sequences
  import opened EventLinks

  ghost predicate Apart(a: seq<Event>, b: seq<Event>) {
    forall x :: x in a ==> x !in b
  }

  lemma UniqueConcat(a: seq<Event>, b: seq<Event>)
    requires Unique(a) && Unique(b) && Apart(a, b)
    ensures Unique(a + b)
  {
    var c := a + b;
    forall i, j | 0 <= i < j < |c|
      ensures c[i] != c[j]
    {
      if i < |a| <= j {
        assert c[i] in a && c[j] == b[j - |a|];
      }
    }
  }

  /** No two of the rings share an event, and none shares one with the first ring. */
  ghost predicate AllApart(first: seq<Event>, rs: seq<seq<Event>>) {
    && (forall i :: 0 <= i < |rs| ==> Apart(first, rs[i]))
    && (forall i, j :: 0 <= i < j < |rs| ==> Apart(rs[i], rs[j]))
  }

  /** Rings from the j-th on are whole, and the chain built so far touches none of them nor the
      rest of the first ring. */
  ghost predicate Building(all: set<Event>, c: seq<Event>, rest: seq<Event>, rs: seq<seq<Event>>, j: nat)
    reads all
  {
    && Within(c, all) && Within(rest, all)
    && (forall i :: 0 <= i < |rs| ==> Within(rs[i], all))
    && c != [] && Chain(c) && Unique(c) && Chain(rest) && Unique(rest) && Apart(c, rest)
    && (forall i :: j <= i < |rs| ==> Ring(rs[i]) && Apart(c, rs[i]))
  }

  ghost predicate Within(es: seq<Event>, all: set<Event>) {
    forall x :: x in es ==> x in all
  }

  /** One more ring hangs on the chain. */
  method AttachNext(ghost all: set<Event>, ghost c: seq<Event>, ghost rest: seq<Event>, ghost rs: seq<seq<Event>>,
                    ghost j: nat, evc: Event, evn: Event)
    returns (last: Event)
    requires j < |rs| && Building(all, c, rest, rs, j) && evc == c[|c| - 1] && evn == rs[j][0]
    requires AllApart(rest, rs)
    modifies evc`next, evn`prev
    ensures Building(all, c + rs[j], rest, rs, j + 1) && last == (c + rs[j])[|c + rs[j]| - 1]
    ensures c[0].prev == old(c[0].prev) && last in all
    ensures rest != [] ==> rest[|rest| - 1].next == old(rest[|rest| - 1].next)
  {
    UniqueConcat(c, rs[j]);
    assert evc in c && evn in rs[j];
    assert forall i :: j < i < |rs| ==> evc !in rs[i] && evn !in rs[i];
    last := Attach(c, rs[j], evc, evn);
  }

  /** pth_event_concat: the first event, then all events of the other rings in order, then the
      rest of the first ring. */
  method Concat(evf: Event?, evs: seq<Event>, ghost first: seq<Event>, ghost rs: seq<seq<Event>>, ghost all: set<Event>)
    returns (r: Event?)
    requires evf != null ==> Ring(first) && evf == first[0]
    requires |evs| == |rs| && forall i :: 0 <= i < |rs| ==> Ring(rs[i]) && rs[i][0] == evs[i]
    requires AllApart(first, rs)
    requires all == set x | x in first + Flat(rs)
    modifies all`next, all`prev
    ensures r == evf
    ensures evf != null ==> Ring(first[..1] + Flat(rs) + first[1..])
  {
    hide Chain, Unique, Apart;
    if evf == null {
      return null;
    }
    ghost var rest := first[1..];
    ghost var c := first[..1];
    var evc, evl := evf, evf.next;
    var j := 0;
    Opened(all, first, rs);
    while j < |evs|
      invariant 0 <= j <= |evs|
      invariant c == first[..1] + Flat(rs[..j]) && Building(all, c, rest, rs, j)
      invariant evc == c[|c| - 1] && evc in all && evl == if rest == [] then evf else rest[0]
      invariant rest != [] ==> rest[|rest| - 1].next == evf && evf.prev == rest[|rest| - 1]
    {
      assert rs[..j + 1][..j] == rs[..j];
      assert c + rs[j] == first[..1] + Flat(rs[..j + 1]);
      assert evs[j] in rs[j];
      evc := AttachNext(all, c, rest, rs, j, evc, evs[j]);
      c := c + rs[j];
      j := j + 1;
    }
    assert rs[..j] == rs;
    UniqueConcat(c, rest);
    Close(c, rest, evc, evl);
    return evf;
  }

  lemma Opened(all: set<Event>, first: seq<Event>, rs: seq<seq<Event>>)
    requires Ring(first) && first != [] && AllApart(first, rs) && all == set x | x in first + Flat(rs)
    requires forall i :: 0 <= i < |rs| ==> Ring(rs[i])
    ensures Building(all, first[..1], first[1..], rs, 0) && AllApart(first[1..], rs)
    ensures first[0].next == (if |first| == 1 then first[0] else first[1])
    ensures first[|first| - 1].next == first[0] && first[0].prev == first[|first| - 1]
    ensures first[..1] == first[..1] + Flat(rs[..0])
  {
    hide Ring, Chain, Unique, Apart, Within, Flat;
    Neighbours(first, 0);
    Neighbours(first, |first| - 1);
    RingParts(first);
    NoRings(first, rs);
    FirstWithin(all, first, rs);
    forall i | 0 <= i < |rs|
      ensures Within(rs[i], all) && Apart(first[..1], rs[i]) && Apart(first[1..], rs[i])
    {
      RingWithin(all, first, rs, i);
      PartsApart(first, rs[i]);
    }
  }

  lemma NoRings(first: seq<Event>, rs: seq<seq<Event>>)
    requires first != []
    ensures first[..1] == first[..1] + Flat(rs[..0])
  {
    assert Flat(rs[..0]) == [];
  }

  lemma FirstWithin(all: set<Event>, first: seq<Event>, rs: seq<seq<Event>>)
    requires first != [] && all == set x | x in first + Flat(rs)
    ensures Within(first[..1], all) && Within(first[1..], all)
  {
    hide Flat;
  }

  lemma RingWithin(all: set<Event>, first: seq<Event>, rs: seq<seq<Event>>, i: nat)
    requires i < |rs| && all == set x | x in first + Flat(rs)
    ensures Within(rs[i], all)
  {
    hide Flat;
    FlatMember(rs, i);
  }

  lemma RingParts(es: seq<Event>)
    requires Ring(es)
    ensures Chain(es[..1]) && Chain(es[1..]) && Unique(es[..1]) && Unique(es[1..]) && Apart(es[..1], es[1..])
  {
    Parts(es);
  }

  lemma Parts(es: seq<Event>)
    requires es != [] && Chain(es) && Unique(es)
    ensures Chain(es[..1]) && Chain(es[1..]) && Unique(es[..1]) && Unique(es[1..]) && Apart(es[..1], es[1..])
  {
    assert forall i :: 0 <= i < |es| - 1 ==> es[1..][i] == es[i + 1];
  }

  lemma PartsApart(es: seq<Event>, other: seq<Event>)
    requires es != [] && Apart(es, other)
    ensures Apart(es[..1], other) && Apart(es[1..], other)
  {
  }

  lemma {:induction false} FlatMember(rs: seq<seq<Event>>, j: nat)
    requires j < |rs|
    ensures forall x :: x in rs[j] ==> x in Flat(rs)
    ensures forall x :: x in Flat(rs[..j]) ==> x in Flat(rs)
  {
    var n := |rs| - 1;
    if j < n {
      FlatMember(rs[..n], j);
      assert rs[..n][..j] == rs[..j];
    }
  }

  /** pth_event_isolate: one event leaves its ring and becomes a ring of its own; the others
      keep their order.  An event that is alone already is left as it is. */
  method Isolate(ev: Event?, ghost es: seq<Event>, ghost k: nat) returns (ring: Event?)
    requires ev != null ==> Ring(es) && k < |es| && es[k] == ev
    modifies es`next, es`prev
    ensures ev == null || |es| == 1 ==>
              ring == null && forall x :: x in es ==> x.next == old(x.next) && x.prev == old(x.prev)
    ensures ev != null && |es| > 1 ==> ring == es[if k + 1 < |es| then k + 1 else 0]
    ensures ev != null && |es| > 1 ==> Ring(RemoveAt(es, k)) && Ring([es[k]])
  {
    hide Ring;
    ring := null;
    if ev != null {
      Neighbours(es, k);
      if !(ev.next == ev && ev.prev == ev) {
        ring := ev.next;
        Unlink(ev, es, k);
      }
    }
  }

  lemma Neighbours(es: seq<Event>, k: nat)
    requires Ring(es) && k < |es|
    ensures es[k].next == es[if k + 1 < |es| then k + 1 else 0]
    ensures es[k].prev == es[if k > 0 then k - 1 else |es| - 1]
    ensures es[k].next == es[k] <==> |es| == 1
    ensures es[k].prev == es[k] <==> |es| == 1
  {
  }

  /** The links of a ring by place. */
  ghost predicate Linked(es: seq<Event>)
    reads es`next, es`prev
  {
    forall i :: 0 <= i < |es| ==>
      && es[i].next == es[if i + 1 < |es| then i + 1 else 0]
      && es[i].prev == es[if i > 0 then i - 1 else |es| - 1]
  }

  lemma LinkedRing(es: seq<Event>)
    requires es != [] && Unique(es)
    ensures Ring(es) <==> Linked(es)
  {
  }

  lemma RemoveUnique(es: seq<Event>, k: nat)
    requires Unique(es) && k < |es|
    ensures Unique(RemoveAt(es, k))
  {
  }

  method Unlink(ev: Event, ghost es: seq<Event>, ghost k: nat)
    requires Ring(es) && k < |es| && |es| > 1 && es[k] == ev
    modifies es`next, es`prev
    ensures Ring(RemoveAt(es, k)) && Ring([ev])
  {
    hide Ring, Chain;
    RingUnique(es);
    LinkedRing(es);
    RemoveUnique(es, k);
    Neighbours(es, k);
    ghost var p, q := if k > 0 then k - 1 else |es| - 1, if k + 1 < |es| then k + 1 else 0;
    ev.prev.next := ev.next;
    ev.next.prev := ev.prev;
    ev.prev := ev;
    ev.next := ev;
    Bypassed(es, k, p, q);
    LinkedRing([ev]);
  }

  /** A place of the shorter ring as a place of the longer one. */
  function Skip(k: nat, i: nat): nat {
    if i < k then i else i + 1
  }

  lemma Bypassed(es: seq<Event>, k: nat, p: nat, q: nat)
    requires |es| > 1 && Unique(es) && k < |es|
    requires p == (if k > 0 then k - 1 else |es| - 1) && q == if k + 1 < |es| then k + 1 else 0
    requires es[p].next == es[q] && es[q].prev == es[p]
    requires forall i :: 0 <= i < |es| && i != k && i != p ==> es[i].next == es[if i + 1 < |es| then i + 1 else 0]
    requires forall i :: 0 <= i < |es| && i != k && i != q ==> es[i].prev == es[if i > 0 then i - 1 else |es| - 1]
    ensures Ring(RemoveAt(es, k))
  {
    hide Ring, Unique;
    var r := RemoveAt(es, k);
    RemoveUnique(es, k);
    forall i | 0 <= i < |r|
      ensures r[i].next == r[if i + 1 < |r| then i + 1 else 0] && r[i].prev == r[if i > 0 then i - 1 else |r| - 1]
    {
      var a := Skip(k, i);
      assert r[i] == es[a];
      if a == p {
        assert r[if i + 1 < |r| then i + 1 else 0] == es[q];
      }
      if a == q {
        assert r[if i > 0 then i - 1 else |r| - 1] == es[p];
      }
    }
    LinkedRing(r);
  }

  lemma RingUnique(es: seq<Event>)
    requires Ring(es)
    ensures Unique(es)
  {
  }

  /** pth_event in chain mode: a fresh event goes in front of ch, that is, at the end of the
      ring read from ch. */
  method ChainInto(ev: Event, ch: Event, ghost es: seq<Event>)
    requires Ring(es) && ch == es[0] && ev !in es
    modifies ev, es`next, es`prev
    ensures Ring(es + [ev]) && ev.status == Pending
  {
    ev.prev := ch.prev;
    ev.next := ch;
    ev.prev.next := ev;
    ev.next.prev := ev;
    ev.status := Pending;
  }

  /** The pattern of pth_cond_await and its likes: an event is concatenated with the caller's
      ring for a wait and isolated afterwards.  The caller gets its ring back link for link. */
  method Borrow(ev: Event, extra: Event, ghost es: seq<Event>)
    requires Ring([ev]) && Ring(es) && extra == es[0] && ev !in es
    modifies ev, es`next, es`prev
    ensures Ring([ev]) && Ring(es)
    ensures forall x :: x in es ==> x.next == old(x.next) && x.prev == old(x.prev)
  {
    hide Ring, Flat, AllApart;
    OneRing(ev, es);
    ghost var all := set x | x in [ev] + Flat([es]);
    var r := Concat(ev, [extra], [ev], [es], all);
    var ring := Isolate(ev, [ev] + es, 0);
    SameLinks(es);
  }

  lemma OneRing(ev: Event, es: seq<Event>)
    requires Ring(es) && ev !in es
    ensures AllApart([ev], [es]) && Flat([es]) == es
    ensures [ev][..1] + Flat([es]) + [ev][1..] == [ev] + es
    ensures RemoveAt([ev] + es, 0) == es && |[ev] + es| > 1
  {
    hide Chain, Unique;
    assert [es][..0] == [];
    assert Flat([es]) == [] + es == es;
  }

  twostate lemma SameLinks(es: seq<Event>)
    requires old(Ring(es)) && Ring(es)
    ensures forall x :: x in es ==> x.next == old(x.next) && x.prev == old(x.prev)
  {
    forall i | 0 <= i < |es|
      ensures es[i].next == old(es[i].next) && es[i].prev == old(es[i].prev)
    {
    }
  }

  /** The first loop of pth_wait: every event of the ring is pending again. */
  method ResetAll(ring: Event, ghost es: seq<Event>)
    requires Ring(es) && ring == es[0]
    modifies es`status
    ensures forall x :: x in es ==> x.status == Pending
  {
    var ev := ring;
    ev.status := Pending;
    ev := ev.next;
    ghost var i := 1;
    while ev != ring
      invariant 1 <= i <= |es| && ev == es[if i < |es| then i else 0]
      invariant forall k :: 0 <= k < i ==> es[k].status == Pending
      decreases |es| - i
    {
      ev.status := Pending;
      ev := ev.next;
      i := i + 1;
    }
  }

  ghost function NonPending(es: seq<Event>): nat
    reads es`status
  {
    if es == [] then 0 else NonPending(es[..|es| - 1]) + if es[|es| - 1].status != Pending then 1 else 0
  }

  /** The last loop of pth_wait: the number of events that occurred or failed. */
  method CountNonPending(ring: Event, ghost es: seq<Event>) returns (n: nat)
    requires Ring(es) && ring == es[0]
    ensures n == NonPending(es)
  {
    n := 0;
    var ev := ring;
    if ev.status != Pending {
      n := n + 1;
    }
    ev := ev.next;
    ghost var i := 1;
    assert es[..1][..0] == [];
    while ev != ring
      invariant 1 <= i <= |es| && ev == es[if i < |es| then i else 0]
      invariant n == NonPending(es[..i])
      decreases |es| - i
    {
      if ev.status != Pending {
        n := n + 1;
      }
      ev := ev.next;
      assert es[..i + 1][..i] == es[..i];
      i := i + 1;
    }
    assert es[..i] == es;
  }
}
