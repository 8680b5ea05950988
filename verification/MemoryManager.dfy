/** The memory manager object of lib/memory/memory_syscall_handlers.c. */
module MemoryManagers {

  import opened BitArrays
  import opened Heaps

  /** Bytes reserved for the page bitmap: one bit for each page of 4 GB. */
  const STORE: nat := 8192

  class MemoryManager {
    const heapStart: int
    const heapSize: nat
    const bitarray: BitArray
    var heapBrk: int
    var heapLowestMmapAddr: int

    ghost function Now(): Heap
      reads this, bitarray.bytes
    {
      Heap(heapStart, heapSize, 8 * bitarray.arraySize, heapBrk, heapLowestMmapAddr, bitarray.Bits())
    }

    ghost predicate Valid()
      reads this, bitarray.bytes
    {
      bitarray.Valid() && bitarray.bytes.Length == STORE && Separated(Now())
    }

    /** The search covers all pages above the initial break, rounded up to whole bytes. */
    constructor (heapPtr: int, heapSize: nat, brk: int)
      requires (heapPtr + heapSize) % PAGE == 0 && heapPtr <= brk <= heapPtr + heapSize <= heapPtr + 8 * STORE * PAGE
      ensures Valid() && fresh(bitarray) && fresh(bitarray.bytes)
      ensures Pages(heapPtr + heapSize - brk) <= 8 * bitarray.arraySize < Pages(heapPtr + heapSize - brk) + 8
      ensures Now() == Initial(heapPtr, heapSize, brk, 8 * bitarray.arraySize, 8 * STORE)
    {
      this.heapStart := heapPtr;
      this.heapSize := heapSize;
      heapBrk := brk;
      heapLowestMmapAddr := heapPtr + heapSize - PAGE;
      var pages := Pages(heapPtr + heapSize - brk);
      bitarray := new BitArray(STORE, pages / 8 + if pages % 8 > 0 then 1 else 0);
      new;
      assert bitarray.Bits() == seq(8 * STORE, i => false);
    }

    /** Mark the pages of a new mapping one by one. */
    method MarkPages(index: nat, n: nat)
      requires bitarray.Valid() && Clear(bitarray.Bits(), index, n)
      modifies bitarray, bitarray.bytes
      ensures bitarray.Bits() == Painted(old(bitarray.Bits()), index, n, true)
    {
      hide Unpacked, Bit;
      assert bitarray.Bits() == Painted(bitarray.Bits(), index, 0, true);
      for i := 0 to n
        invariant bitarray.Bits() == Painted(old(bitarray.Bits()), index, i, true)
      {
        bitarray.ToggleBit(index + i);
      }
    }

    /** The same, clearing, on bits of which some may be clear already. */
    method UnmarkPages(index: nat, n: nat)
      requires bitarray.Valid() && index + n <= 8 * bitarray.bytes.Length
      modifies bitarray, bitarray.bytes
      ensures bitarray.Bits() == Painted(old(bitarray.Bits()), index, n, false)
    {
      hide Unpacked, Bit;
      assert bitarray.Bits() == Painted(bitarray.Bits(), index, 0, false);
      for i := index to index + n
        invariant bitarray.Bits() == Painted(old(bitarray.Bits()), index, i - index, false)
      {
        var bit := bitarray.GetBit(i);
        if bit {
          bitarray.ToggleBit(i);
        }
      }
    }

    /** alloc_memory_pseudo_mmap and the anonymous branch of memory_mmap. */
    method Mmap(length: nat, allowed: bool) returns (reply: Reply)
      requires Valid()
      modifies this, bitarray, bitarray.bytes
      ensures Valid()
      ensures var o := Heaps.Mmap(old(Now()), length, allowed); Now() == o.heap && reply == o.reply
    {
      hide LowestRun, Separated, Unpacked, Bit;
      ghost var h := Now();
      MmapApart(h, length, allowed);
      if !allowed || length == 0 {
        return NotSupported;
      }
      var n := Pages(length);
      assert bitarray.Window() == h.marked[..h.window];
      var index := bitarray.SearchEmptybitSequenceBegin(n);
      if index == -1 {
        return NoMemory;
      }
      var low := heapStart + heapSize - PAGE - (index + n - 1) * PAGE;
      if low < heapBrk {
        return NoMemory;
      }
      RunInWindow(h, index, n);
      MarkPages(index, n);
      if low < heapLowestMmapAddr {
        heapLowestMmapAddr := low;
      }
      return Address(low);
    }

    lemma RunInWindow(h: Heap, index: int, n: nat)
      requires h.window <= |h.marked| && index == LowestRun(h.marked[..h.window], n) && index != -1
      ensures 0 <= index && Clear(h.marked, index, n)
    {
    }

    method Munmap(addr: int, length: nat)
      requires Valid() && Reaches(Now(), addr, length)
      modifies bitarray, bitarray.bytes
      ensures Valid() && Now() == Heaps.Munmap(old(Now()), addr, length)
    {
      ghost var h := Now();
      MunmapApart(h, addr, length);
      var top := heapStart + heapSize;
      var lowest := top - Pages(top - heapBrk) * PAGE;
      if lowest <= addr <= top - PAGE {
        var begin := (top - PAGE - addr) / PAGE;
        UnmarkPages(begin, Pages(length));
      }
    }

    method Sysbrk(addr: int) returns (reply: Reply)
      requires Valid()
      modifies this
      ensures Valid()
      ensures var o := Heaps.Sysbrk(old(Now()), addr); Now() == o.heap && reply == o.reply
    {
      SysbrkApart(Now(), addr);
      if addr < heapStart {
        return Address(heapBrk);
      } else if addr < heapLowestMmapAddr {
        heapBrk := addr;
        return Address(heapBrk);
      } else {
        return NoMemory;
      }
    }

    lemma Counted(h: Heap)
      requires Separated(h)
      ensures h.brk <= Top(h) && Pages(Top(h) - h.brk) <= |h.marked|
      ensures (Highest(h) - (Top(h) - Pages(Top(h) - h.brk) * PAGE)) / PAGE + 1 == Pages(Top(h) - h.brk)
    {
      RoomForAll(h);
    }

    method GetAvphysPages() returns (n: nat)
      requires Valid()
      ensures Pages(Top(Now()) - Now().brk) <= |Now().marked| && n == Available(Now())
    {
      hide Separated, Pages, Unpacked, Bit;
      Counted(Now());
      var top := heapStart + heapSize;
      var lowest := top - Pages(top - heapBrk) * PAGE;
      var all := (top - PAGE - lowest) / PAGE + 1;
      n := 0;
      for i := 0 to all
        invariant n == CountClear(bitarray.Bits(), i)
      {
        var bit := bitarray.GetBit(i);
        if !bit {
          n := n + 1;
        }
      }
    }
  }
}
