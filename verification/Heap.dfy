/** One address range shared by brk, which grows up, and anonymous mappings, which grow down from
    the top (lib/memory/memory_syscall_handlers.c), as values. */
module Heaps {

  import opened BitArrays

  const PAGE: nat := 65536

  /** Bit i of marked stands for the i-th page below the top.  Only the first window bits are
      searched for free pages. */
  datatype Heap = Heap(start: int, size: nat, window: nat, brk: int, lowest: int, marked: seq<bool>)

  function Top(h: Heap): int {
    h.start + h.size
  }

  function Highest(h: Heap): int {
    Top(h) - PAGE
  }

  function PageAddr(h: Heap, i: int): int {
    Highest(h) - i * PAGE
  }

  /** Address a belongs to page i. */
  predicate OnPage(h: Heap, i: int, a: int) {
    PageAddr(h, i) <= a < PageAddr(h, i) + PAGE
  }

  /** How many pages cover a length. */
  function Pages(length: nat): nat {
    (length + (PAGE - 1)) / PAGE
  }

  /** The lowest page address that munmap accepts. */
  function LowestPage(h: Heap): int
    requires h.brk <= Top(h)
  {
    Top(h) - Pages(Top(h) - h.brk) * PAGE
  }

  /** The top is aligned, and the bitmap has room for every page of the heap. */
  ghost predicate Laid(h: Heap) {
    Top(h) % PAGE == 0 && h.window <= |h.marked| && h.size <= |h.marked| * PAGE && h.start <= h.brk <= Top(h)
  }

  /** No mapped page reaches below the break or below the lowest mapping address. */
  ghost predicate Separated(h: Heap) {
    && Laid(h) && h.lowest <= Highest(h)
    && (h.brk <= h.lowest || h.brk > Highest(h))
    && forall i :: 0 <= i < |h.marked| && h.marked[i] ==> h.brk <= PageAddr(h, i) && h.lowest <= PageAddr(h, i)
  }

  function Painted(bits: seq<bool>, from: nat, n: nat, v: bool): (r: seq<bool>)
    ensures |r| == |bits|
    ensures forall k :: 0 <= k < |r| ==> r[k] == if from <= k < from + n then v else bits[k]
  {
    seq(|bits|, k requires 0 <= k < |bits| => if from <= k < from + n then v else bits[k])
  }

  datatype Reply = Address(addr: int) | NoMemory | NotSupported

  datatype Outcome = Outcome(heap: Heap, reply: Reply)

  // ---- the operations

  ghost function FreeRun(h: Heap, n: nat): int
    requires h.window <= |h.marked|
  {
    LowestRun(h.marked[..h.window], n)
  }

  /** An anonymous mapping. */
  ghost function Mmap(h: Heap, length: nat, allowed: bool): Outcome
    requires Laid(h)
  {
    var n := Pages(length);
    var i := FreeRun(h, n);
    if !allowed || length == 0 then Outcome(h, NotSupported)
    else if i == -1 || PageAddr(h, i + n - 1) < h.brk then Outcome(h, NoMemory)
    else
      var addr := PageAddr(h, i + n - 1);
      Outcome(h.(marked := Painted(h.marked, i, n, true), lowest := if addr < h.lowest then addr else h.lowest),
        Address(addr))
  }

  predicate Accepted(h: Heap, addr: int)
    requires h.brk <= Top(h)
  {
    LowestPage(h) <= addr <= Highest(h)
  }

  /** Where munmap starts. */
  function FirstIndex(h: Heap, addr: int): nat
    requires addr <= Highest(h)
  {
    (Highest(h) - addr) / PAGE
  }

  /** The bits that munmap visits exist. */
  ghost predicate Reaches(h: Heap, addr: int, length: nat) {
    h.brk <= Top(h) && (Accepted(h, addr) ==> FirstIndex(h, addr) + Pages(length) <= |h.marked|)
  }

  function Munmap(h: Heap, addr: int, length: nat): Heap
    requires Reaches(h, addr, length)
  {
    if Accepted(h, addr) then h.(marked := Painted(h.marked, FirstIndex(h, addr), Pages(length), false)) else h
  }

  function Sysbrk(h: Heap, addr: int): Outcome {
    if addr < h.start then Outcome(h, Address(h.brk))
    else if addr < h.lowest then Outcome(h.(brk := addr), Address(addr))
    else Outcome(h, NoMemory)
  }

  // ---- safety over every run

  lemma MmapApart(h: Heap, length: nat, allowed: bool)
    requires Separated(h)
    ensures Separated(Mmap(h, length, allowed).heap)
  {
  }

  lemma MunmapApart(h: Heap, addr: int, length: nat)
    requires Separated(h) && Reaches(h, addr, length)
    ensures Separated(Munmap(h, addr, length))
  {
  }

  lemma SysbrkApart(h: Heap, addr: int)
    requires Separated(h)
    ensures Separated(Sysbrk(h, addr).heap)
  {
  }

  datatype Op = OpMmap(length: nat, allowed: bool) | OpMunmap(addr: int, size: nat) | OpBrk(to: int)

  ghost function Apply(h: Heap, op: Op): Heap
    requires Laid(h) && (op.OpMunmap? ==> Reaches(h, op.addr, op.size))
  {
    match op
    case OpMmap(length, allowed) => Mmap(h, length, allowed).heap
    case OpMunmap(addr, size) => Munmap(h, addr, size)
    case OpBrk(to) => Sysbrk(h, to).heap
  }

  /** A step of a run is the call of its name. */
  lemma OpsAreCalls(h: Heap, op: Op)
    requires Laid(h) && (op.OpMunmap? ==> Reaches(h, op.addr, op.size))
    ensures op.OpMmap? ==> Apply(h, op) == Mmap(h, op.length, op.allowed).heap
    ensures op.OpMunmap? ==> Apply(h, op) == Munmap(h, op.addr, op.size)
    ensures op.OpBrk? ==> Apply(h, op) == Sysbrk(h, op.to).heap
  {
  }

  /** A run in which munmap is never told to leave the bitmap. */
  ghost predicate Legal(h: Heap, ops: seq<Op>)
    requires Separated(h)
    decreases |ops|
  {
    ops != [] ==>
      && (ops[0].OpMunmap? ==> Reaches(h, ops[0].addr, ops[0].size))
      && (ApplyApart(h, ops[0]); Legal(Apply(h, ops[0]), ops[1..]))
  }

  lemma ApplyApart(h: Heap, op: Op)
    requires Separated(h) && (op.OpMunmap? ==> Reaches(h, op.addr, op.size))
    ensures Separated(Apply(h, op))
    ensures h.brk <= h.lowest ==> Apply(h, op).brk <= Apply(h, op).lowest
  {
    hide Pages, Painted;
    match op
    case OpMmap(length, allowed) => MmapApart(h, length, allowed);
    case OpMunmap(addr, size) => MunmapApart(h, addr, size);
    case OpBrk(to) => SysbrkApart(h, to);
  }

  ghost function Exec(h: Heap, ops: seq<Op>): Heap
    requires Separated(h) && Legal(h, ops)
    decreases |ops|
  {
    if ops == [] then h else
      ApplyApart(h, ops[0]);
      Exec(Apply(h, ops[0]), ops[1..])
  }

  ghost function Initial(start: int, size: nat, brk: int, window: nat, store: nat): Heap {
    Heap(start, size, window, brk, start + size - PAGE, seq(store, i => false))
  }

  lemma {:induction false} ExecApart(h: Heap, ops: seq<Op>)
    requires Separated(h) && Legal(h, ops)
    ensures Separated(Exec(h, ops)) && (h.brk <= h.lowest ==> Exec(h, ops).brk <= Exec(h, ops).lowest)
    decreases |ops|
  {
    if ops != [] {
      ApplyApart(h, ops[0]);
      ExecApart(Apply(h, ops[0]), ops[1..]);
    }
  }

  /** At the end of every run, and so at every point of it: the memory below the break and the
      mapped pages do not overlap; if the heap began with a whole page above the break, the
      break has not passed the lowest mapping address either. */
  lemma RunsApart(start: int, size: nat, brk: int, window: nat, store: nat, ops: seq<Op>)
    requires Laid(Initial(start, size, brk, window, store))
    ensures var h0 := Initial(start, size, brk, window, store);
            && Separated(h0)
            && (Legal(h0, ops) ==>
                  var h := Exec(h0, ops);
                  && (brk <= Highest(h0) ==> h.brk <= h.lowest)
                  && forall i, a :: 0 <= i < |h.marked| && h.marked[i] && OnPage(h, i, a) ==>
                      a >= h.brk && a >= h.lowest)
  {
    var h0 := Initial(start, size, brk, window, store);
    if Legal(h0, ops) {
      ExecApart(h0, ops);
    }
  }

  // ---- the break

  /** sysbrk moves the break exactly to an address at or above the start of the heap and below every
      mapping, and says so; below the start it only tells the break, and anything else is refused. */
  lemma SysbrkMeaning(h: Heap, addr: int)
    ensures var o := Sysbrk(h, addr);
            && (o.reply == NoMemory <==> addr >= h.start && addr >= h.lowest)
            && (o.reply != NoMemory ==> o.reply == Address(o.heap.brk))
            && o.heap.brk == (if h.start <= addr < h.lowest then addr else h.brk)
            && o.heap == h.(brk := o.heap.brk)
  {
  }

  /** The operation moves the break. */
  ghost predicate Moves(h: Heap, op: Op) {
    op.OpBrk? && h.start <= op.to < h.lowest
  }

  /** No operation of the run moves the break. */
  ghost predicate Still(h: Heap, ops: seq<Op>)
    requires Separated(h) && Legal(h, ops)
    decreases |ops|
  {
    ops != [] ==> !Moves(h, ops[0]) && (ApplyApart(h, ops[0]); Still(Apply(h, ops[0]), ops[1..]))
  }

  lemma {:induction false} BreakStays(h: Heap, ops: seq<Op>)
    requires Separated(h) && Legal(h, ops) && Still(h, ops)
    ensures Exec(h, ops).brk == h.brk
    decreases |ops|
  {
    hide Laid, Painted, LowestRun, Pages;
    if ops != [] {
      ApplyApart(h, ops[0]);
      BreakStays(Apply(h, ops[0]), ops[1..]);
    }
  }

  lemma {:induction false} ExecConcat(h: Heap, a: seq<Op>, b: seq<Op>)
    requires Separated(h) && Legal(h, a + b)
    ensures Legal(h, a) && Separated(Exec(h, a)) && Legal(Exec(h, a), b) && Exec(h, a + b) == Exec(Exec(h, a), b)
    decreases |a|
  {
    hide Laid, Apply;
    if a == [] {
      assert a + b == b;
    } else {
      assert (a + b)[0] == a[0] && (a + b)[1..] == a[1..] + b;
      ApplyApart(h, a[0]);
      ExecConcat(Apply(h, a[0]), a[1..], b);
    }
  }

  /** After any run the break is where the last sysbrk that was not refused put it. */
  lemma BreakIsLast(h: Heap, before: seq<Op>, to: int, after: seq<Op>)
    requires Separated(h) && Legal(h, before + ([OpBrk(to)] + after))
    ensures Legal(h, before) && Separated(Exec(h, before))
    ensures var h1 := Exec(h, before);
            && Separated(Apply(h1, OpBrk(to))) && Legal(Apply(h1, OpBrk(to)), after)
            && (Moves(h1, OpBrk(to)) && Still(Apply(h1, OpBrk(to)), after) ==>
                  Exec(h, before + ([OpBrk(to)] + after)).brk == to)
  {
    hide Laid;
    ExecConcat(h, before, [OpBrk(to)] + after);
    var h1 := Exec(h, before);
    ApplyApart(h1, OpBrk(to));
    assert ([OpBrk(to)] + after)[1..] == after;
    if Moves(h1, OpBrk(to)) && Still(Apply(h1, OpBrk(to)), after) {
      BreakStays(Apply(h1, OpBrk(to)), after);
    }
  }

  // ---- mappings that are held

  /** The run clears none of the n pages from the i-th down. */
  ghost predicate Spares(h: Heap, ops: seq<Op>, i: nat, n: nat)
    requires Separated(h) && Legal(h, ops)
    decreases |ops|
  {
    ops != [] ==>
      && (ops[0].OpMunmap? && Accepted(h, ops[0].addr) ==>
            FirstIndex(h, ops[0].addr) + Pages(ops[0].size) <= i || FirstIndex(h, ops[0].addr) >= i + n)
      && (ApplyApart(h, ops[0]); Spares(Apply(h, ops[0]), ops[1..], i, n))
  }

  ghost predicate Held(h: Heap, i: nat, n: nat) {
    i + n <= |h.marked| && forall k :: i <= k < i + n ==> h.marked[k]
  }

  lemma ApplyHolds(h: Heap, op: Op, i: nat, n: nat)
    requires Separated(h) && Held(h, i, n) && (op.OpMunmap? ==> Reaches(h, op.addr, op.size))
    requires op.OpMunmap? && Accepted(h, op.addr) ==>
               FirstIndex(h, op.addr) + Pages(op.size) <= i || FirstIndex(h, op.addr) >= i + n
    ensures Held(Apply(h, op), i, n) && Apply(h, op).start == h.start && Apply(h, op).size == h.size
  {
    hide Painted, Pages, LowestRun;
  }

  lemma {:induction false} ExecHolds(h: Heap, ops: seq<Op>, i: nat, n: nat)
    requires Separated(h) && Legal(h, ops) && Spares(h, ops, i, n) && Held(h, i, n)
    ensures Held(Exec(h, ops), i, n) && Exec(h, ops).start == h.start && Exec(h, ops).size == h.size
    decreases |ops|
  {
    hide Held, Apply;
    if ops != [] {
      ApplyApart(h, ops[0]);
      ApplyHolds(h, ops[0], i, n);
      ExecHolds(Apply(h, ops[0]), ops[1..], i, n);
    }
  }

  /** Memory that is held is not given away again: after any run that does not clear its pages, a
      new mapping lies wholly below or wholly above it. */
  lemma MappingsDisjoint(h: Heap, ops: seq<Op>, i: nat, n: nat, length: nat)
    requires Separated(h) && Legal(h, ops) && n > 0 && Held(h, i, n) && Spares(h, ops, i, n)
    ensures Separated(Exec(h, ops))
    ensures var o := Mmap(Exec(h, ops), length, true);
            o.reply.Address? ==>
              o.reply.addr + Pages(length) * PAGE <= PageAddr(h, i + n - 1) || o.reply.addr >= PageAddr(h, i) + PAGE
  {
    hide Painted, Pages, CountClear, Legal, Exec, Spares;
    ExecApart(h, ops);
    ExecHolds(h, ops, i, n);
    var t := Exec(h, ops);
    if Mmap(t, length, true).reply.Address? {
      MmapMeaning(t, length, true);
      var m := Pages(length);
      var j := FreeRun(t, m);
      ClearBesideHeld(t, i, n, j, m);
    }
  }

  lemma ClearBesideHeld(h: Heap, i: nat, n: nat, j: nat, m: nat)
    requires Held(h, i, n) && Clear(h.marked, j, m) && n > 0 && m > 0
    ensures j + m <= i || i + n <= j
  {
    var k := if i < j then j else i;
    assert i <= k < i + n ==> h.marked[k];
  }

  // ---- available pages

  function CountClear(bits: seq<bool>, n: nat): (c: nat)
    requires n <= |bits|
    ensures c <= n
  {
    if n == 0 then 0 else CountClear(bits, n - 1) + if bits[n - 1] then 0 else 1
  }

  function Available(h: Heap): nat
    requires h.brk <= Top(h) && Pages(Top(h) - h.brk) <= |h.marked|
  {
    CountClear(h.marked, Pages(Top(h) - h.brk))
  }

  lemma {:induction false} CountClearIs(bits: seq<bool>, n: nat)
    requires n <= |bits|
    ensures CountClear(bits, n) == |set i | 0 <= i < n && !bits[i]|
  {
    if n > 0 {
      CountClearIs(bits, n - 1);
      var before := set i | 0 <= i < n - 1 && !bits[i];
      assert (set i | 0 <= i < n && !bits[i]) == before + if bits[n - 1] then {} else {n - 1};
    }
  }

  /** The available pages are the unmarked ones that reach above the break. */
  lemma AvailableMeaning(h: Heap)
    requires Laid(h)
    ensures Pages(Top(h) - h.brk) <= |h.marked|
    ensures Available(h) == |set i | 0 <= i < |h.marked| && !h.marked[i] && PageAddr(h, i) + PAGE > h.brk|
  {
    hide CountClear;
    RoomForAll(h);
    var n := Pages(Top(h) - h.brk);
    CountClearIs(h.marked, n);
    assert (set i | 0 <= i < n && !h.marked[i])
        == (set i | 0 <= i < |h.marked| && !h.marked[i] && PageAddr(h, i) + PAGE > h.brk);
  }

  lemma RoomForAll(h: Heap)
    requires Laid(h)
    ensures Pages(Top(h) - h.brk) <= |h.marked|
  {
  }

  lemma {:induction false} PaintCount(bits: seq<bool>, from: nat, n: nat, k: nat)
    requires k <= |bits| && from + n <= |bits| && Clear(bits, from, n)
    ensures CountClear(Painted(bits, from, n, true), k) ==
              CountClear(bits, k) - (if k <= from then 0 else if k <= from + n then k - from else n)
  {
    hide Painted;
    if k > 0 {
      PaintCount(bits, from, n, k - 1);
    }
  }

  // ---- what mmap promises

  /** A run of n free pages that lies wholly at or above the break. */
  ghost predicate Room(h: Heap, s: nat, n: nat)
    requires h.window <= |h.marked|
  {
    Clear(h.marked[..h.window], s, n) && PageAddr(h, s + n - 1) >= h.brk
  }

  /** mmap succeeds whenever it could: taking the run with the highest addresses is enough. */
  lemma MmapIffRoom(h: Heap, length: nat, allowed: bool)
    requires Laid(h)
    ensures Mmap(h, length, allowed).reply.Address? <==>
            allowed && length > 0 && exists s: nat :: Room(h, s, Pages(length))
    ensures !Mmap(h, length, allowed).reply.Address? ==> Mmap(h, length, allowed).heap == h
  {
    var n := Pages(length);
    var i := FreeRun(h, n);
    if i != -1 && PageAddr(h, i + n - 1) >= h.brk {
      assert Room(h, i, n);
    }
    if s: nat :| Room(h, s, n) {
      assert i != -1 && i <= s;
    }
  }

  /** The pages returned were free, lie between the break and the top, are marked now like no
      others, and are exactly the drop in the number of available pages. */
  lemma MmapMeaning(h: Heap, length: nat, allowed: bool)
    requires Laid(h) && Mmap(h, length, allowed).reply.Address?
    ensures var n := Pages(length);
            var i := FreeRun(h, n);
            var h' := Mmap(h, length, allowed).heap;
            var addr := Mmap(h, length, allowed).reply.addr;
            && i >= 0 && n > 0 && addr == PageAddr(h, i + n - 1) && length <= n * PAGE < length + PAGE
            && h.brk <= addr && addr + n * PAGE <= Top(h)
            && Clear(h.marked, i, n) && h'.marked == Painted(h.marked, i, n, true)
            && Laid(h') && h' == h.(marked := h'.marked, lowest := if addr < h.lowest then addr else h.lowest)
            && Pages(Top(h) - h.brk) <= |h.marked|
            && Available(h') == Available(h) - n
  {
    hide Painted, CountClear;
    var n := Pages(length);
    var i := FreeRun(h, n);
    RoomForAll(h);
    Inside(h, i + n - 1);
    PaintCount(h.marked, i, n, Pages(Top(h) - h.brk));
  }

  /** A page at or above the break is among those that are counted. */
  lemma Inside(h: Heap, k: nat)
    requires h.brk <= Top(h) && PageAddr(h, k) >= h.brk
    ensures k + 1 <= Pages(Top(h) - h.brk)
  {
  }

  // ---- what munmap does

  /** Whether munmap clears page k: the page begins less than a page above addr, and at most one page
      less than the length below it. */
  ghost predicate Clears(h: Heap, addr: int, length: nat, k: nat) {
    addr - (Pages(length) - 1) * PAGE <= PageAddr(h, k) < addr + PAGE
  }

  /** munmap clears the pages around and below addr if addr is between the page of the break and the
      highest page, and otherwise nothing; it changes nothing but the bitmap. */
  lemma MunmapClears(h: Heap, addr: int, length: nat)
    requires Laid(h) && Reaches(h, addr, length)
    ensures LowestPage(h) % PAGE == 0 && LowestPage(h) <= h.brk < LowestPage(h) + PAGE
    ensures var h' := Munmap(h, addr, length);
            && h' == h.(marked := h'.marked) && |h'.marked| == |h.marked|
            && forall k :: 0 <= k < |h.marked| ==>
                 (h'.marked[k] <==> h.marked[k] && !(LowestPage(h) <= addr <= Highest(h) && Clears(h, addr, length, k)))
  {
    hide Painted;
  }

  /** munmap clears from the page at addr towards lower addresses. */
  lemma MunmapMeaning(h: Heap, i: nat, length: nat)
    requires Laid(h) && Accepted(h, PageAddr(h, i)) && Reaches(h, PageAddr(h, i), length)
    ensures FirstIndex(h, PageAddr(h, i)) == i
    ensures Munmap(h, PageAddr(h, i), length).marked == Painted(h.marked, i, Pages(length), false)
  {
  }

  /** munmap of what mmap returned restores the bitmap exactly for a single page. */
  lemma MunmapUndoesMmap(h: Heap, length: nat)
    requires Laid(h) && Mmap(h, length, true).reply.Address?
    requires Reaches(Mmap(h, length, true).heap, Mmap(h, length, true).reply.addr, length)
    ensures var o := Mmap(h, length, true);
            Munmap(o.heap, o.reply.addr, length).marked == h.marked <==> length <= PAGE
  {
    hide Painted, CountClear;
    MmapMeaning(h, length, true);
    var n := Pages(length);
    var i := FreeRun(h, n);
    var o := Mmap(h, length, true);
    Inside(h, i + n - 1);
    MunmapMeaning(o.heap, i + n - 1, length);
    var after := Munmap(o.heap, o.reply.addr, length).marked;
    assert after == Painted(Painted(h.marked, i, n, true), i + n - 1, n, false);
    if n > 1 {
      assert after[i] && !h.marked[i];
    } else {
      assert after == h.marked;
    }
  }

  /** Of a larger mapping it frees one page only, and it takes the pages below the mapping away
      from whoever holds them. */
  lemma MunmapStrays(h: Heap, i: nat, n: nat, length: nat, k: nat)
    requires Laid(h) && n == Pages(length) && n > 1
    requires Accepted(h, PageAddr(h, i + n - 1)) && Reaches(h, PageAddr(h, i + n - 1), length)
    ensures var m := Munmap(h, PageAddr(h, i + n - 1), length).marked;
            && (i <= k < i + n - 1 ==> m[k] == h.marked[k])
            && (i + n - 1 <= k < i + 2 * n - 1 ==> !m[k])
  {
    hide Painted;
    MunmapMeaning(h, i + n - 1, length);
  }

  /** Two pages mapped and unmapped in a heap of four: one stays marked. */
  lemma TwoPagesExample()
    ensures var h := Initial(0, 4 * PAGE, 0, 4, 4);
            && Laid(h) && Mmap(h, 2 * PAGE, true).reply == Address(2 * PAGE)
            && Reaches(Mmap(h, 2 * PAGE, true).heap, 2 * PAGE, 2 * PAGE)
            && Munmap(Mmap(h, 2 * PAGE, true).heap, 2 * PAGE, 2 * PAGE).marked == [true, false, false, false]
  {
    var h := Initial(0, 4 * PAGE, 0, 4, 4);
    assert Clear(h.marked[..4], 0, 2);
    assert FreeRun(h, 2) == 0;
    var o := Mmap(h, 2 * PAGE, true);
    assert o.heap.marked == [true, true, false, false];
  }
}
