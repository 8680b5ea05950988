/** The tables as the library keeps them: two arrays, each with a hint where to look for a free
    slot, and the calls that change them (lib/fs). */
module DescriptorTables {

  import opened Descriptors

  /** lib/fs/open_file_description.c */
  class OpenFilesPool {
    const files: array<File>
    var firstUnused: int

    /** Everything below the hint is taken.  The hint is -1 after a failed search. */
    ghost predicate Valid()
      reads this, files
    {
      && files.Length == MAX_HANDLES && firstUnused < MAX_HANDLES
      && forall i :: 0 <= i < firstUnused ==> files[i].refcount > 0
    }

    constructor ()
      ensures Valid() && fresh(files) && files[..] == Empty().files
    {
      files := new File[MAX_HANDLES](_ => File(0, 0, 0, 0));
      firstUnused := 0;
    }

    predicate Verify(id: int)
      reads this, files
      requires files.Length == MAX_HANDLES
    {
      0 <= id < MAX_HANDLES && files[id].refcount > 0
    }

    /** The search from the hint finds what a search from 0 would. */
    method SeekUnusedSlot(startingFrom: int) returns (r: int)
      requires Valid() && startingFrom == firstUnused
      modifies this`firstUnused
      ensures Valid() && r == LowestFree(files[..], (f: File) => f.refcount == 0)
      ensures firstUnused == if r == -1 then old(firstUnused) else r
    {
      var i := if startingFrom < 0 then 0 else startingFrom;
      while i < MAX_HANDLES
        invariant 0 <= i <= MAX_HANDLES
        invariant forall j :: 0 <= j < i ==> files[j].refcount > 0
      {
        if files[i].refcount == 0 {
          firstUnused := i;
          return i;
        }
        i := i + 1;
      }
      return -1;
    }

    method GetNew(flags: int) returns (id: int)
      requires Valid()
      modifies this, files
      ensures Valid() && id == LowestFree(old(files[..]), (f: File) => f.refcount == 0)
      ensures files[..] == if id == -1 then old(files[..]) else old(files[..])[id := File(1, 0, 0, flags)]
    {
      firstUnused := SeekUnusedSlot(firstUnused);
      if firstUnused == -1 {
        return -1;
      }
      files[firstUnused] := File(files[firstUnused].refcount + 1, 0, 0, flags);
      return firstUnused;
    }

    method Refer(id: int) returns (r: int)
      requires Valid()
      modifies files
      ensures Valid() && r == if old(Verify(id)) then 0 else -1
      ensures files[..] == if r == -1 then old(files[..])
                           else old(files[..])[id := old(files[id]).(refcount := old(files[id]).refcount + 1)]
    {
      if !Verify(id) {
        return -1;
      }
      files[id] := files[id].(refcount := files[id].refcount + 1);
      return 0;
    }

    method Release(id: int) returns (r: int)
      requires Valid()
      modifies this, files
      ensures Valid() && r == if old(Verify(id)) then 0 else -1
      ensures files[..] == if r == -1 then old(files[..])
                           else old(files[..])[id := old(files[id]).(refcount := old(files[id]).refcount - 1)]
    {
      if !Verify(id) {
        return -1;
      }
      files[id] := files[id].(refcount := files[id].refcount - 1);
      if files[id].refcount == 0 {
        if id < firstUnused {
          firstUnused := id;
        }
      }
      return 0;
    }
  }

  /** lib/fs/handle_allocator.c */
  class HandleAllocator {
    const slots: array<Handle>
    var firstUnused: int

    ghost predicate Valid()
      reads this, slots
    {
      && slots.Length == MAX_HANDLES && firstUnused < MAX_HANDLES
      && forall i :: 0 <= i < firstUnused ==> slots[i].used
    }

    constructor ()
      ensures Valid() && fresh(slots) && slots[..] == Empty().handles
    {
      slots := new Handle[MAX_HANDLES](_ => Handle(false, 0, 0, 0, 0));
      firstUnused := 0;
    }

    predicate Verify(handle: int, used: bool)
      reads this, slots
      requires slots.Length == MAX_HANDLES
    {
      0 <= handle < MAX_HANDLES && slots[handle].used == used
    }

    predicate Related(handle: int, mount: int)
      reads this, slots
      requires slots.Length == MAX_HANDLES
    {
      Verify(handle, true) && slots[handle].mount == mount
    }

    method SeekUnusedSlot(startingFrom: int) returns (r: int)
      requires Valid() && startingFrom == firstUnused
      modifies this`firstUnused
      ensures Valid() && r == LowestFree(slots[..], (h: Handle) => !h.used)
      ensures firstUnused == if r == -1 then old(firstUnused) else r
    {
      var i := if startingFrom < 0 then 0 else startingFrom;
      while i < MAX_HANDLES
        invariant 0 <= i <= MAX_HANDLES
        invariant forall j :: 0 <= j < i ==> slots[j].used
      {
        if !slots[i].used {
          firstUnused := i;
          return i;
        }
        i := i + 1;
      }
      return -1;
    }

    method Allocate(mount: int, inode: int, parent: int, file: int) returns (r: int)
      requires Valid()
      modifies this, slots
      ensures Valid() && r == LowestFree(old(slots[..]), (h: Handle) => !h.used)
      ensures slots[..] ==
                if r == -1 then old(slots[..]) else old(slots[..])[r := Handle(true, mount, inode, parent, file)]
    {
      firstUnused := SeekUnusedSlot(firstUnused);
      if firstUnused == -1 {
        return -1;
      }
      slots[firstUnused] := Handle(true, mount, inode, parent, file);
      return firstUnused;
    }

    /** A given slot; the hint stays, even if it was this slot. */
    method Allocate2(mount: int, inode: int, parent: int, file: int, handle: int) returns (r: int)
      requires Valid()
      modifies slots
      ensures Valid() && r == if old(Verify(handle, false)) then handle else -1
      ensures slots[..] ==
                if r == -1 then old(slots[..]) else old(slots[..])[handle := Handle(true, mount, inode, parent, file)]
    {
      if !Verify(handle, false) {
        return -1;
      }
      slots[handle] := Handle(true, mount, inode, parent, file);
      return handle;
    }

    method Free(handle: int) returns (r: int)
      requires Valid()
      modifies this, slots
      ensures Valid() && r == if old(Verify(handle, true)) then 0 else -1
      ensures slots[..] == if r == -1 then old(slots[..]) else old(slots[..])[handle := Freed(old(slots[handle]))]
    {
      if !Verify(handle, true) {
        return -1;
      }
      slots[handle] := Freed(slots[handle]);
      if handle < firstUnused {
        firstUnused := handle;
      }
      return 0;
    }
  }

  /** The calls of lib/fs/transparent_mount.c, with the file system of lib/fs/mem_mount_wraper.cc
      below them. */
  class TransparentMount {
    const pool: OpenFilesPool
    const table: HandleAllocator

    ghost predicate Valid()
      reads this, pool, pool.files, table, table.slots
    {
      pool.Valid() && table.Valid() && Coherent(Now())
    }

    ghost function Now(): State
      reads this, pool, pool.files, table, table.slots
    {
      State(table.slots[..], pool.files[..])
    }

    constructor ()
      ensures Valid() && Now() == Empty()
    {
      pool := new OpenFilesPool();
      table := new HandleAllocator();
      new;
      EmptyCoherent();
    }

    /** The handle is open and its description alive. */
    predicate HasMount(fd: int)
      reads this, pool, pool.files, table, table.slots
      requires pool.files.Length == table.slots.Length == MAX_HANDLES
    {
      table.Verify(fd, true) && pool.Verify(table.slots[fd].file)
    }

    method Open(mount: int, inode: int, parent: int, flags: int, refused: bool) returns (r: int)
      requires Valid()
      modifies pool, pool.files, table, table.slots
      ensures Valid()
      ensures var o := Descriptors.Open(old(Now()), mount, inode, parent, flags, refused);
              Now() == o.state && r == o.result
    {
      ghost var s := Now();
      OpenCoherent(s, mount, inode, parent, flags, refused);
      if FreeFile(s) == -1 {
        Exhausted(s);
      }
      var id := pool.GetNew(flags);
      var fd := table.Allocate(mount, inode, parent, id);
      if fd < 0 {
        var dropped := pool.Release(id);
        assert Now() == Descriptors.Open(s, mount, inode, parent, flags, refused).state;
        return -1;
      }
      assert Now() == Descriptors.Open(s, mount, inode, parent, flags, refused).state;
      if refused {
        return -1;
      }
      return fd;
    }

    /** The file system's close, on a handle known to be open. */
    method CloseHandle(fd: int)
      requires Valid() && Open?(Now(), fd)
      modifies pool, pool.files, table, table.slots
      ensures Valid() && Now() == Descriptors.Close(old(Now()), fd).state
    {
      ghost var s := Now();
      CloseCoherent(s, fd);
      Live(s, fd);
      var ret := pool.Release(table.slots[fd].file);
      assert ret == 0;
      ret := table.Free(fd);
      assert ret == 0;
      assert Now() == Descriptors.Close(s, fd).state;
    }

    method Close(fd: int) returns (r: int)
      requires Valid()
      modifies pool, pool.files, table, table.slots
      ensures Valid()
      ensures var o := Descriptors.Close(old(Now()), fd); Now() == o.state && r == o.result
    {
      ghost var s := Now();
      if Open?(s, fd) {
        Live(s, fd);
      }
      if HasMount(fd) && table.Related(fd, table.slots[fd].mount) {
        CloseHandle(fd);
        return 0;
      } else {
        return -1;
      }
    }

    method Dup(oldfd: int) returns (r: int)
      requires Valid()
      modifies pool, pool.files, table, table.slots
      ensures Valid()
      ensures var o := Descriptors.Dup(old(Now()), oldfd); Now() == o.state && r == o.result
    {
      ghost var s := Now();
      DupCoherent(s, oldfd);
      if Open?(s, oldfd) {
        Live(s, oldfd);
      }
      if !HasMount(oldfd) || !table.Related(oldfd, table.slots[oldfd].mount) {
        return -1;
      }
      var h := table.slots[oldfd];
      var ret := pool.Refer(h.file);
      assert ret == 0;
      r := table.Allocate(h.mount, h.inode, h.parent, h.file);
      if r == -1 {
        ret := pool.Release(h.file);
        assert Now() == s;
      } else {
        assert Now() == Descriptors.Dup(s, oldfd).state;
      }
    }

    method Dup2(oldfd: int, newfd: int) returns (r: int)
      requires Valid()
      modifies pool, pool.files, table, table.slots
      ensures Valid()
      ensures var o := Descriptors.Dup2(old(Now()), oldfd, newfd); Now() == o.state && r == o.result
    {
      hide Users, LowestFree;
      ghost var s := Now();
      Dup2Coherent(s, oldfd, newfd);
      if Open?(s, oldfd) {
        Live(s, oldfd);
      }
      if !HasMount(oldfd) || !table.Related(oldfd, table.slots[oldfd].mount) {
        return -1;
      }
      if oldfd == newfd {
        return newfd;
      }
      if Open?(s, newfd) {
        Live(s, newfd);
      }
      if HasMount(newfd) && table.Related(newfd, table.slots[newfd].mount) {
        CloseHandle(newfd);
      }
      ghost var t := Now();
      assert t == Descriptors.Close(s, newfd).state;
      Live(t, oldfd);
      var h := table.slots[oldfd];
      var ret := pool.Refer(h.file);
      assert ret == 0;
      r := table.Allocate2(h.mount, h.inode, h.parent, h.file, newfd);
      if r == -1 {
        ret := pool.Release(h.file);
        assert Now() == t;
      } else {
        assert Now() == Descriptors.Dup2(s, oldfd, newfd).state;
      }
    }

    /** Any run of calls does what the plain tables do. */
    method Perform(ops: seq<Op>)
      requires Valid()
      modifies pool, pool.files, table, table.slots
      ensures Valid() && Now() == Exec(old(Now()), ops)
    {
      ghost var s := Now();
      for i := 0 to |ops|
        invariant Valid() && Exec(Now(), ops[i..]) == Exec(s, ops)
      {
        var r;
        match ops[i] {
          case OpOpen(mount, inode, parent, flags, refused) => r := Open(mount, inode, parent, flags, refused);
          case OpClose(fd) => r := Close(fd);
          case OpDup(fd) => r := Dup(fd);
          case OpDup2(fd, target) => r := Dup2(fd, target);
        }
        assert ops[i..][1..] == ops[i + 1..];
      }
    }
  }
}
