/** The value that a Pth thread queue stands for: a sequence of threads with
    their absolute priorities, highest first.  The operations here say what the
    queue operations of pth_pqueue.c mean without any links or deltas. */
module PrioritySequence {
  import opened Sequences

  datatype Entry<+T> = Entry(item: T, prio: int)

  type Queue<+T> = seq<Entry<T>>

  ghost predicate Sorted<T>(q: Queue<T>) {
    forall i, j :: 0 <= i < j < |q| ==> q[i].prio >= q[j].prio
  }

  ghost predicate Distinct<T>(q: Queue<T>) {
    forall i, j :: 0 <= i < j < |q| ==> q[i].item != q[j].item
  }

  /** The threads of a queue, without their order. */
  ghost function Items<T>(q: Queue<T>): set<T> {
    set i | 0 <= i < |q| :: q[i].item
  }

  /** The place of a newcomer: behind every entry of greater or equal priority. */
  function Position<T>(q: Queue<T>, prio: int): (k: nat)
    ensures k <= |q|
    ensures forall i :: 0 <= i < k ==> q[i].prio >= prio
    ensures k < |q| ==> q[k].prio < prio
  {
    if q == [] || q[0].prio < prio then 0 else 1 + Position(q[1..], prio)
  }

  function Insert<T>(q: Queue<T>, prio: int, t: T): Queue<T> {
    InsertAt(q, Position(q, prio), Entry(t, prio))
  }

  predicate Contains<T(==)>(q: Queue<T>, t: T) {
    exists i :: 0 <= i < |q| && q[i].item == t
  }

  function IndexOf<T(==)>(q: Queue<T>, t: T): (k: nat)
    requires Contains(q, t)
    ensures k < |q| && q[k].item == t
    ensures forall i :: 0 <= i < k ==> q[i].item != t
  {
    if q[0].item == t then 0
    else
      assert Contains(q[1..], t) by {
        var i :| 0 <= i < |q| && q[i].item == t;
        assert q[1..][i - 1].item == t;
      }
      1 + IndexOf(q[1..], t)
  }

  function Delete<T(==)>(q: Queue<T>, t: T): Queue<T>
    requires Contains(q, t)
  {
    RemoveAt(q, IndexOf(q, t))
  }

  function Increase<T>(q: Queue<T>): (r: Queue<T>)
    ensures |r| == |q|
    ensures forall i :: 0 <= i < |q| ==> r[i] == Entry(q[i].item, q[i].prio + 1)
  {
    seq(|q|, i requires 0 <= i < |q| => Entry(q[i].item, q[i].prio + 1))
  }

  /** The priority that puts a newcomer in front: PTH_PRIO_MAX on an empty queue. */
  const PRIO_MAX: int := 5
  const PRIO_STD: int := 0

  function FavoritePrio<T>(q: Queue<T>): int {
    if q == [] then PRIO_MAX else q[0].prio + 1
  }

  function Favorite<T(==)>(q: Queue<T>, t: T): Queue<T>
    requires Contains(q, t)
  {
    if |q| == 1 then q else
      var r := Delete(q, t);
      Insert(r, FavoritePrio(r), t)
  }

  // ---- what the operations mean

  /** Insertion keeps the order, keeps the entries present, and adds one. */
  lemma InsertSorted<T>(q: Queue<T>, prio: int, t: T)
    requires Sorted(q)
    ensures Sorted(Insert(q, prio, t))
    ensures multiset(Insert(q, prio, t)) == multiset(q) + multiset{Entry(t, prio)}
  {
    InsertAtMultiset(q, Position(q, prio), Entry(t, prio));
  }

  /** Stability: the newcomer stands directly behind the last entry of at least its
      priority, and nothing else moves relative to anything else. */
  lemma InsertStable<T>(q: Queue<T>, prio: int, t: T, k: nat)
    requires Sorted(q) && k <= |q|
    requires forall i :: 0 <= i < k ==> q[i].prio >= prio
    requires forall i :: k <= i < |q| ==> q[i].prio < prio
    ensures Insert(q, prio, t) == InsertAt(q, k, Entry(t, prio))
  {
    assert k < |q| ==> q[k].prio < prio;
    assert Position(q, prio) == k;
  }

  lemma InsertItems<T>(q: Queue<T>, prio: int, t: T)
    ensures Items(Insert(q, prio, t)) == Items(q) + {t} && |Insert(q, prio, t)| == |q| + 1
    ensures Distinct(q) && t !in Items(q) ==> Distinct(Insert(q, prio, t))
  {
    var k := Position(q, prio);
    var r := Insert(q, prio, t);
    assert r[k].item == t;
    forall x | x in Items(q)
      ensures x in Items(r)
    {
      var i :| 0 <= i < |q| && q[i].item == x;
      assert r[if i < k then i else i + 1].item == x;
    }
  }

  lemma InsertEntries<T>(q: Queue<T>, prio: int, t: T)
    ensures forall e :: e in Insert(q, prio, t) <==> e in q || e == Entry(t, prio)
  {
    var k, r := Position(q, prio), Insert(q, prio, t);
    assert r[k] == Entry(t, prio);
    forall e | e in q
      ensures e in r
    {
      var i :| 0 <= i < |q| && q[i] == e;
      assert r[if i < k then i else i + 1] == e;
    }
  }

  /** Deletion leaves every entry of the others as it is. */
  lemma DeleteEntries<T>(q: Queue<T>, t: T)
    requires Distinct(q) && Contains(q, t)
    ensures forall e :: e in Delete(q, t) <==> e in q && e.item != t
  {
    var k, r := IndexOf(q, t), Delete(q, t);
    forall e | e in q && e.item != t
      ensures e in r
    {
      var i :| 0 <= i < |q| && q[i] == e;
      assert r[if i < k then i else i - 1] == e;
    }
  }

  lemma RemoveFacts<T>(q: Queue<T>, k: nat)
    requires k < |q|
    ensures Sorted(q) ==> Sorted(RemoveAt(q, k))
    ensures Distinct(q) ==> Distinct(RemoveAt(q, k)) && Items(RemoveAt(q, k)) == Items(q) - {q[k].item}
  {
    var r := RemoveAt(q, k);
    if Distinct(q) {
      forall x | x in Items(q) - {q[k].item}
        ensures x in Items(r)
      {
        var i :| 0 <= i < |q| && q[i].item == x;
        assert r[if i < k then i else i - 1].item == x;
      }
    }
  }

  lemma DeleteAt<T>(q: Queue<T>, t: T, k: nat)
    requires Distinct(q) && k < |q| && q[k].item == t
    ensures Contains(q, t) && Delete(q, t) == RemoveAt(q, k)
  {
    assert IndexOf(q, t) == k;
  }

  lemma DeleteFacts<T>(q: Queue<T>, t: T)
    requires Contains(q, t)
    ensures |Delete(q, t)| == |q| - 1
    ensures Sorted(q) ==> Sorted(Delete(q, t))
    ensures Distinct(q) ==> Distinct(Delete(q, t)) && Items(Delete(q, t)) == Items(q) - {t}
  {
    RemoveFacts(q, IndexOf(q, t));
  }

  lemma IncreaseFacts<T>(q: Queue<T>)
    ensures Sorted(q) ==> Sorted(Increase(q))
    ensures Distinct(q) ==> Distinct(Increase(q))
    ensures Items(Increase(q)) == Items(q)
  {
    forall x | x in Items(q)
      ensures x in Items(Increase(q))
    {
      var i :| 0 <= i < |q| && q[i].item == x;
      assert Increase(q)[i].item == x;
    }
  }

  lemma InsertInFront<T>(q: Queue<T>, t: T)
    requires Sorted(q)
    ensures Insert(q, FavoritePrio(q), t) == [Entry(t, FavoritePrio(q))] + q
  {
    InsertStable(q, FavoritePrio(q), t, 0);
    assert q[0..] == q;
  }

  /** A favoured thread is in front, one above the best of the others, which keep
      their order and their priorities. */
  lemma FavoriteInFront<T>(q: Queue<T>, t: T)
    requires Contains(q, t) && Sorted(q) && |q| > 1
    ensures var r := Delete(q, t);
            r != [] && Sorted(r) && Favorite(q, t) == [Entry(t, r[0].prio + 1)] + r
  {
    DeleteFacts(q, t);
    InsertInFront(Delete(q, t), t);
  }

  lemma Present<T>(q: Queue<T>, t: T)
    requires Contains(q, t)
    ensures t in Items(q) && q != []
  {
  }

  lemma FavoriteFacts<T>(q: Queue<T>, t: T)
    requires Contains(q, t) && Sorted(q) && Distinct(q)
    ensures Sorted(Favorite(q, t)) && Distinct(Favorite(q, t))
    ensures Items(Favorite(q, t)) == Items(q) && |Favorite(q, t)| == |q|
  {
    hide Sorted, Distinct, Items, Insert, Delete, FavoritePrio, Contains;
    Present(q, t);
    if |q| > 1 {
      var r := Delete(q, t);
      DeleteFacts(q, t);
      InsertSorted(r, FavoritePrio(r), t);
      InsertItems(r, FavoritePrio(r), t);
    }
  }

  // ---- waking threads

  /** The waiters that stay, in their order. */
  function Keep<T(==)>(w: Queue<T>, wake: set<T>): Queue<T> {
    if w == [] then [] else
      var r := Keep(w[..|w| - 1], wake);
      var e := w[|w| - 1];
      if e.item in wake then r else r + [e]
  }

  /** The ready queue after the woken waiters were inserted one by one, each one
      above its base priority. */
  function WakeInto<T(==)>(w: Queue<T>, ready: Queue<T>, wake: set<T>, base: T -> int): Queue<T> {
    if w == [] then ready else
      var r := WakeInto(w[..|w| - 1], ready, wake, base);
      var t := w[|w| - 1].item;
      if t in wake then Insert(r, base(t) + 1, t) else r
  }

  lemma NoItems<T>()
    ensures Items<T>([]) == {}
  {
  }

  lemma Snoc<T>(q: Queue<T>, e: Entry<T>)
    ensures Items(q + [e]) == Items(q) + {e.item}
    ensures Distinct(q) && e.item !in Items(q) <==> Distinct(q + [e])
  {
    var r := q + [e];
    assert r[|q|] == e;
    forall i | 0 <= i < |q|
      ensures q[i].item in Items(r)
    {
      assert r[i] == q[i];
    }
    if Distinct(r) {
      forall i, j | 0 <= i < j < |q|
        ensures q[i].item != q[j].item
      {
        assert r[i] == q[i] && r[j] == q[j];
      }
      forall i | 0 <= i < |q|
        ensures q[i].item != e.item
      {
        assert r[i] == q[i];
      }
    }
  }

  /** A queue without repetition holds as many threads as it has entries. */
  lemma {:induction false} CountItems<T>(q: Queue<T>)
    requires Distinct(q)
    ensures |Items(q)| == |q|
  {
    NoItems<T>();
    hide Items, Distinct;
    if q != [] {
      var v, e := q[..|q| - 1], q[|q| - 1];
      assert q == v + [e];
      Snoc(v, e);
      CountItems(v);
    }
  }

  lemma SnocSorted<T>(q: Queue<T>, e: Entry<T>)
    requires Sorted(q) && forall i :: 0 <= i < |q| ==> q[i].prio >= e.prio
    ensures Sorted(q + [e])
  {
  }

  lemma {:induction false} KeepFacts<T>(w: Queue<T>, wake: set<T>)
    requires Distinct(w)
    ensures Distinct(Keep(w, wake)) && Items(Keep(w, wake)) == Items(w) - wake
    ensures forall e :: e in Keep(w, wake) ==> e in w && e.item !in wake
    ensures forall e :: e in w && e.item !in wake ==> e in Keep(w, wake)
  {
    if w != [] {
      var v, e := w[..|w| - 1], w[|w| - 1];
      assert w == v + [e];
      Snoc(v, e);
      KeepFacts(v, wake);
      Snoc(Keep(v, wake), e);
    }
  }

  lemma {:induction false} KeepSorted<T>(w: Queue<T>, wake: set<T>)
    requires Distinct(w) && Sorted(w)
    ensures Sorted(Keep(w, wake))
  {
    if w != [] {
      var v, e := w[..|w| - 1], w[|w| - 1];
      assert w == v + [e];
      Snoc(v, e);
      KeepSorted(v, wake);
      KeepFacts(v, wake);
      var r := Keep(v, wake);
      forall k | 0 <= k < |r|
        ensures r[k].prio >= e.prio
      {
        assert r[k] in Keep(v, wake);
        assert r[k] in v;
        var i :| 0 <= i < |v| && v[i] == r[k];
        assert w[i] == r[k];
      }
      SnocSorted(Keep(v, wake), e);
    }
  }

  lemma {:induction false} WakeIntoFacts<T>(w: Queue<T>, ready: Queue<T>, wake: set<T>, base: T -> int)
    requires Distinct(w) && Distinct(ready) && Sorted(ready) && Items(w) !! Items(ready)
    ensures var r := WakeInto(w, ready, wake, base);
            && Distinct(r) && Sorted(r) && Items(r) == Items(ready) + (Items(w) * wake)
            && (forall e :: e in ready ==> e in r)
            && (forall i :: 0 <= i < |w| && w[i].item in wake ==> Entry(w[i].item, base(w[i].item) + 1) in r)
  {
    NoItems<T>();
    hide Distinct, Sorted, Items, Insert;
    if w != [] {
      var v, e := w[..|w| - 1], w[|w| - 1];
      assert w == v + [e];
      Snoc(v, e);
      WakeIntoFacts(v, ready, wake, base);
      var r := WakeInto(v, ready, wake, base);
      InsertItems(r, base(e.item) + 1, e.item);
      InsertEntries(r, base(e.item) + 1, e.item);
      InsertSorted(r, base(e.item) + 1, e.item);
    }
  }
}
