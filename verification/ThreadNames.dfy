/** Queues of threads and queues of their names: the operations on one are those on the other. */
module ThreadNames {
  import opened Sequences
  import opened PrioritySequence
  import opened ThreadRing

  function Names(q: Queue<Thread>): (r: Queue<nat>)
    ensures |r| == |q|
    ensures forall i :: 0 <= i < |q| ==> r[i] == Entry(q[i].item.id, q[i].prio)
  {
    seq(|q|, i requires 0 <= i < |q| => Entry(q[i].item.id, q[i].prio))
  }

  /** Nobody else in the queue goes by the name of t. */
  ghost predicate Alone(q: Queue<Thread>, t: Thread) {
    forall i :: 0 <= i < |q| && q[i].item.id == t.id ==> q[i].item == t
  }

  lemma NamesInsert(q: Queue<Thread>, prio: int, t: Thread)
    ensures Names(Insert(q, prio, t)) == Insert(Names(q), prio, t.id)
  {
    hide Names;
    NamesPosition(q, prio);
    var k := Position(q, prio);
    var a, b := Names(InsertAt(q, k, Entry(t, prio))), InsertAt(Names(q), k, Entry(t.id, prio));
    forall i | 0 <= i < |a|
      ensures a[i] == b[i]
    {
    }
  }

  lemma NamesPosition(q: Queue<Thread>, prio: int)
    ensures Position(Names(q), prio) == Position(q, prio)
  {
    hide Names, Position;
    var a, b := Position(Names(q), prio), Position(q, prio);
    assert a < |q| ==> Names(q)[a].prio == q[a].prio;
    assert b < |q| ==> Names(q)[b].prio == q[b].prio;
  }

  lemma NamesContains(q: Queue<Thread>, t: Thread)
    requires Alone(q, t)
    ensures Contains(Names(q), t.id) <==> Contains(q, t)
  {
    hide Names;
    if Contains(q, t) {
      var i :| 0 <= i < |q| && q[i].item == t;
      assert Names(q)[i].item == t.id;
    }
    if Contains(Names(q), t.id) {
      var i :| 0 <= i < |q| && Names(q)[i].item == t.id;
      assert q[i].item == t;
    }
  }

  lemma NamesDelete(q: Queue<Thread>, t: Thread)
    requires Alone(q, t) && Contains(q, t)
    ensures Contains(Names(q), t.id) && Names(Delete(q, t)) == Delete(Names(q), t.id)
  {
    hide Names, Contains, IndexOf;
    NamesContains(q, t);
    NamesIndex(q, t);
    var k := IndexOf(q, t);
    var a, b := Names(RemoveAt(q, k)), RemoveAt(Names(q), k);
    forall i | 0 <= i < |a|
      ensures a[i] == b[i]
    {
    }
  }

  lemma NamesIndex(q: Queue<Thread>, t: Thread)
    requires Alone(q, t) && Contains(q, t) && Contains(Names(q), t.id)
    ensures IndexOf(Names(q), t.id) == IndexOf(q, t)
  {
    hide Names, Contains, IndexOf;
    var a, b := IndexOf(Names(q), t.id), IndexOf(q, t);
    assert Names(q)[a].item == q[a].item.id && Names(q)[b].item == q[b].item.id;
  }

  lemma NamesIncrease(q: Queue<Thread>)
    ensures Names(Increase(q)) == Increase(Names(q))
  {
    hide Names, Increase;
    var a, b := Names(Increase(q)), Increase(Names(q));
    forall i | 0 <= i < |a|
      ensures a[i] == b[i]
    {
    }
  }

  lemma NamesFavorite(q: Queue<Thread>, t: Thread)
    requires Alone(q, t) && Contains(q, t)
    ensures Contains(Names(q), t.id) && Names(Favorite(q, t)) == Favorite(Names(q), t.id)
  {
    hide Names, Contains, Delete, Insert;
    NamesDelete(q, t);
    var r := Delete(q, t);
    NamesInsert(r, FavoritePrio(r), t);
    assert FavoritePrio(Names(r)) == FavoritePrio(r);
  }

  lemma {:induction false} NamesKeep(w: Queue<Thread>, wake: set<Thread>, woken: set<nat>)
    requires forall i :: 0 <= i < |w| ==> (w[i].item in wake <==> w[i].item.id in woken)
    ensures Names(Keep(w, wake)) == Keep(Names(w), woken)
  {
    hide Names;
    if w != [] {
      var n := |w| - 1;
      NamesPrefix(w);
      NamesKeep(w[..n], wake, woken);
      NamesSnoc(Keep(w[..n], wake), w[n]);
    }
  }

  lemma NamesPrefix(w: Queue<Thread>)
    requires w != []
    ensures Names(w[..|w| - 1]) == Names(w)[..|w| - 1]
  {
  }

  lemma NamesSnoc(w: Queue<Thread>, e: Entry<Thread>)
    ensures Names(w + [e]) == Names(w) + [Entry(e.item.id, e.prio)]
  {
  }

  lemma {:induction false} NamesWakeInto(w: Queue<Thread>, ready: Queue<Thread>, wake: set<Thread>, woken: set<nat>,
                                         base: Thread -> int, prio: nat -> int)
    requires forall i :: 0 <= i < |w| ==>
               (w[i].item in wake <==> w[i].item.id in woken) && base(w[i].item) == prio(w[i].item.id)
    ensures Names(WakeInto(w, ready, wake, base)) == WakeInto(Names(w), Names(ready), woken, prio)
  {
    hide Names, Insert;
    if w != [] {
      var n := |w| - 1;
      NamesPrefix(w);
      NamesWakeInto(w[..n], ready, wake, woken, base, prio);
      NamesInsert(WakeInto(w[..n], ready, wake, base), base(w[n].item) + 1, w[n].item);
    }
  }
}
