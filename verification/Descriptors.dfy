/** Handles and open file descriptions as values: what open, close, dup and dup2 do, told with a
    plain scan for the lowest free slot (section 2.14 of POSIX.1-2017 System Interfaces). */
module Descriptors {

  const MAX_HANDLES: nat := 1000

  /** A slot of the handle table (lib/fs/handle_allocator.c). */
  datatype Handle = Handle(used: bool, mount: int, inode: int, parent: int, file: int)

  /** An open file description (lib/fs/open_file_description.c). */
  datatype File = File(refcount: nat, offset: int, sequential: int, flags: int)

  datatype State = State(handles: seq<Handle>, files: seq<File>)

  /** The lowest place that is free, or -1. */
  function LowestFree<T>(s: seq<T>, free: T -> bool): (r: int)
    ensures r == -1 ==> forall i :: 0 <= i < |s| ==> !free(s[i])
    ensures r != -1 ==> 0 <= r < |s| && free(s[r]) && forall i :: 0 <= i < r ==> !free(s[i])
  {
    if s == [] then -1 else
      var n := |s| - 1;
      var r := LowestFree(s[..n], free);
      if r != -1 then r else if free(s[n]) then n else -1
  }

  function FreeHandle(s: State): int {
    LowestFree(s.handles, (h: Handle) => !h.used)
  }

  function FreeFile(s: State): int {
    LowestFree(s.files, (f: File) => f.refcount == 0)
  }

  // ---- the invariant

  /** How many used handles name description d. */
  function Users(hs: seq<Handle>, d: int): nat {
    if hs == [] then 0 else
      var n := |hs| - 1;
      Users(hs[..n], d) + if hs[n].used && hs[n].file == d then 1 else 0
  }

  ghost predicate Coherent(s: State) {
    && |s.handles| == |s.files| == MAX_HANDLES
    && (forall d :: 0 <= d < |s.files| ==> s.files[d].refcount == Users(s.handles, d))
    && (forall h :: 0 <= h < |s.handles| && s.handles[h].used ==> 0 <= s.handles[h].file < |s.files|)
  }

  predicate Open?(s: State, fd: int) {
    0 <= fd < |s.handles| && s.handles[fd].used
  }

  // ---- counting

  function Counts(h: Handle, d: int): nat {
    if h.used && h.file == d then 1 else 0
  }

  /** Changing one slot changes the counts by that slot only. */
  lemma {:induction false} UsersUpdate(hs: seq<Handle>, k: nat, h: Handle, d: int)
    requires k < |hs|
    ensures Users(hs[k := h], d) == Users(hs, d) - Counts(hs[k], d) + Counts(h, d)
  {
    var n := |hs| - 1;
    if k < n {
      UsersUpdate(hs[..n], k, h, d);
      assert hs[k := h][..n] == hs[..n][k := h];
    } else {
      assert hs[k := h][..n] == hs[..n];
    }
  }

  lemma {:induction false} UsersPositive(hs: seq<Handle>, k: nat)
    requires k < |hs| && hs[k].used
    ensures Users(hs, hs[k].file) > 0
  {
    UsersUpdate(hs, k, hs[k].(used := false), hs[k].file);
  }

  /** Every used handle names a live description. */
  lemma Live(s: State, fd: int)
    requires Coherent(s) && Open?(s, fd)
    ensures 0 <= s.handles[fd].file < |s.files| && s.files[s.handles[fd].file].refcount > 0
  {
    UsersPositive(s.handles, fd);
  }

  function UsedCount(hs: seq<Handle>): nat {
    if hs == [] then 0 else UsedCount(hs[..|hs| - 1]) + if hs[|hs| - 1].used then 1 else 0
  }

  /** The users of the first n descriptions together. */
  function UsersBelow(hs: seq<Handle>, n: nat): nat {
    if n == 0 then 0 else UsersBelow(hs, n - 1) + Users(hs, n - 1)
  }

  lemma {:induction false} UsersBelowStep(hs: seq<Handle>, n: nat)
    requires hs != []
    ensures var h := hs[|hs| - 1];
            UsersBelow(hs, n) == UsersBelow(hs[..|hs| - 1], n) + if h.used && 0 <= h.file < n then 1 else 0
  {
    if n > 0 {
      UsersBelowStep(hs, n - 1);
    }
  }

  lemma {:induction false} UsersBelowNone(n: nat)
    ensures UsersBelow([], n) == 0
  {
    if n > 0 {
      UsersBelowNone(n - 1);
    }
  }

  lemma {:induction false} UsersBelowTotal(hs: seq<Handle>, n: nat)
    ensures UsersBelow(hs, n) <= UsedCount(hs) <= |hs|
    ensures UsedCount(hs) == |hs| ==> forall i :: 0 <= i < |hs| ==> hs[i].used
  {
    if hs == [] {
      UsersBelowNone(n);
    } else {
      UsersBelowTotal(hs[..|hs| - 1], n);
      UsersBelowStep(hs, n);
    }
  }

  lemma {:induction false} AllUsedBelow(hs: seq<Handle>, n: nat)
    requires forall d :: 0 <= d < n ==> Users(hs, d) > 0
    ensures UsersBelow(hs, n) >= n
  {
    if n > 0 {
      AllUsedBelow(hs, n - 1);
    }
  }

  /** Pigeonhole: when no description is free, no handle is. */
  lemma Exhausted(s: State)
    requires Coherent(s) && FreeFile(s) == -1
    ensures FreeHandle(s) == -1
  {
    forall d | 0 <= d < |s.files|
      ensures Users(s.handles, d) > 0
    {
      assert s.files[d].refcount == Users(s.handles, d);
    }
    AllUsedBelow(s.handles, |s.files|);
    UsersBelowTotal(s.handles, |s.files|);
  }

  // ---- the operations

  function AddRef(s: State, d: nat): State
    requires d < |s.files|
  {
    s.(files := s.files[d := s.files[d].(refcount := s.files[d].refcount + 1)])
  }

  function DropRef(s: State, d: nat): State
    requires d < |s.files| && s.files[d].refcount > 0
  {
    s.(files := s.files[d := s.files[d].(refcount := s.files[d].refcount - 1)])
  }

  function SetHandle(s: State, k: nat, h: Handle): State
    requires k < |s.handles|
  {
    s.(handles := s.handles[k := h])
  }

  /** The slot after free_handle: the parent inode stays. */
  function Freed(h: Handle): Handle {
    Handle(false, 0, 0, h.parent, 0)
  }

  /** A state and what the caller gets; -1 is an error. */
  datatype Outcome = Outcome(state: State, result: int)

  function Close(s: State, fd: int): Outcome
    requires Coherent(s)
  {
    if !Open?(s, fd) then Outcome(s, -1) else
      Live(s, fd);
      Outcome(SetHandle(DropRef(s, s.handles[fd].file), fd, Freed(s.handles[fd])), 0)
  }

  function Dup(s: State, fd: int): Outcome
    requires Coherent(s)
  {
    if !Open?(s, fd) || FreeHandle(s) == -1 then Outcome(s, -1) else
      Outcome(SetHandle(AddRef(s, s.handles[fd].file), FreeHandle(s), s.handles[fd]), FreeHandle(s))
  }

  function Dup2(s: State, fd: int, target: int): Outcome
    requires Coherent(s)
  {
    if !Open?(s, fd) then Outcome(s, -1)
    else if fd == target then Outcome(s, target)
    else if !(0 <= target < MAX_HANDLES) then Outcome(s, -1)
    else
      CloseCoherent(s, target);
      var t := Close(s, target).state;
      Outcome(SetHandle(AddRef(t, t.handles[fd].file), target, t.handles[fd]), target)
  }

  /** Open, once the file is found.  A directory that may not be opened this way is refused only
      after its handle has been taken, and keeps it. */
  function Open(s: State, mount: int, inode: int, parent: int, flags: int, refused: bool): Outcome
    requires Coherent(s)
  {
    var k := FreeHandle(s);
    var d := FreeFile(s);
    if d == -1 then Outcome(s, -1)
    else if k == -1 then Outcome(s.(files := s.files[d := File(0, 0, 0, flags)]), -1)
    else
      Outcome(State(s.handles[k := Handle(true, mount, inode, parent, d)], s.files[d := File(1, 0, 0, flags)]),
              if refused then -1 else k)
  }

  // ---- each keeps the counts exact

  lemma CloseCoherent(s: State, fd: int)
    requires Coherent(s)
    ensures Coherent(Close(s, fd).state)
  {
    if Open?(s, fd) {
      Live(s, fd);
      forall d | 0 <= d < |s.files|
        ensures Close(s, fd).state.files[d].refcount == Users(Close(s, fd).state.handles, d)
      {
        UsersUpdate(s.handles, fd, Freed(s.handles[fd]), d);
      }
    }
  }

  /** A new handle on an existing description, in a slot that was free. */
  lemma GrantCoherent(s: State, k: nat, h: Handle)
    requires Coherent(s) && k < |s.handles| && !s.handles[k].used && h.used && 0 <= h.file < |s.files|
    ensures Coherent(SetHandle(AddRef(s, h.file), k, h))
  {
    var t := SetHandle(AddRef(s, h.file), k, h);
    forall d | 0 <= d < |s.files|
      ensures t.files[d].refcount == Users(t.handles, d)
    {
      UsersUpdate(s.handles, k, h, d);
    }
  }

  lemma DupCoherent(s: State, fd: int)
    requires Coherent(s)
    ensures Coherent(Dup(s, fd).state)
  {
    if Open?(s, fd) && FreeHandle(s) != -1 {
      GrantCoherent(s, FreeHandle(s), s.handles[fd]);
    }
  }

  lemma Dup2Coherent(s: State, fd: int, target: int)
    requires Coherent(s)
    ensures Coherent(Dup2(s, fd, target).state)
  {
    if Open?(s, fd) && fd != target && 0 <= target < MAX_HANDLES {
      CloseCoherent(s, target);
      var t := Close(s, target).state;
      GrantCoherent(t, target, t.handles[fd]);
    }
  }

  lemma OpenCoherent(s: State, mount: int, inode: int, parent: int, flags: int, refused: bool)
    requires Coherent(s)
    ensures Coherent(Open(s, mount, inode, parent, flags, refused).state)
  {
    var k, d := FreeHandle(s), FreeFile(s);
    if d != -1 && k != -1 {
      var t := Open(s, mount, inode, parent, flags, refused).state;
      forall e | 0 <= e < |s.files|
        ensures t.files[e].refcount == Users(t.handles, e)
      {
        UsersUpdate(s.handles, k, t.handles[k], e);
      }
    }
  }

  // ---- over whole runs

  datatype Op =
    | OpOpen(mount: int, inode: int, parent: int, flags: int, refused: bool)
    | OpClose(fd: int)
    | OpDup(fd: int)
    | OpDup2(fd: int, target: int)

  function Apply(s: State, op: Op): (o: Outcome)
    requires Coherent(s)
    ensures Coherent(o.state)
  {
    match op
    case OpOpen(mount, inode, parent, flags, refused) =>
      OpenCoherent(s, mount, inode, parent, flags, refused);
      Open(s, mount, inode, parent, flags, refused)
    case OpClose(fd) => CloseCoherent(s, fd); Close(s, fd)
    case OpDup(fd) => DupCoherent(s, fd); Dup(s, fd)
    case OpDup2(fd, target) => Dup2Coherent(s, fd, target); Dup2(s, fd, target)
  }

  /** A step of a run is the call of its name. */
  lemma OpsAreCalls(s: State, op: Op)
    requires Coherent(s)
    ensures op.OpOpen? ==> Apply(s, op) == Open(s, op.mount, op.inode, op.parent, op.flags, op.refused)
    ensures op.OpClose? ==> Apply(s, op) == Close(s, op.fd)
    ensures op.OpDup? ==> Apply(s, op) == Dup(s, op.fd)
    ensures op.OpDup2? ==> Apply(s, op) == Dup2(s, op.fd, op.target)
  {
  }

  function Exec(s: State, ops: seq<Op>): (t: State)
    requires Coherent(s)
    ensures Coherent(t)
    decreases |ops|
  {
    if ops == [] then s else Exec(Apply(s, ops[0]).state, ops[1..])
  }

  function Empty(): State {
    State(seq(MAX_HANDLES, i => Handle(false, 0, 0, 0, 0)), seq(MAX_HANDLES, i => File(0, 0, 0, 0)))
  }

  lemma {:induction false} NobodyUses(hs: seq<Handle>, d: int)
    requires forall i :: 0 <= i < |hs| ==> !hs[i].used
    ensures Users(hs, d) == 0
  {
    if hs != [] {
      NobodyUses(hs[..|hs| - 1], d);
    }
  }

  lemma EmptyCoherent()
    ensures Coherent(Empty())
  {
    forall d | 0 <= d < MAX_HANDLES
      ensures Users(Empty().handles, d) == 0
    {
      NobodyUses(Empty().handles, d);
    }
  }

  /** After any run: refcounts are exact, handles name live descriptions, and descriptions run
      out only together with handles. */
  lemma RunsCoherent(ops: seq<Op>)
    ensures Coherent(Empty())
    ensures var s := Exec(Empty(), ops);
            && (forall d :: 0 <= d < MAX_HANDLES ==> s.files[d].refcount == Users(s.handles, d))
            && (forall h :: 0 <= h < MAX_HANDLES && s.handles[h].used ==>
                  0 <= s.handles[h].file < MAX_HANDLES && s.files[s.handles[h].file].refcount > 0)
            && (FreeFile(s) == -1 ==> FreeHandle(s) == -1)
  {
    EmptyCoherent();
    var s := Exec(Empty(), ops);
    forall h | 0 <= h < MAX_HANDLES && s.handles[h].used
      ensures s.files[s.handles[h].file].refcount > 0
    {
      Live(s, h);
    }
    if FreeFile(s) == -1 {
      Exhausted(s);
    }
  }

  // ---- what each promises its caller

  /** The same to every caller: equal but for what free slots and dead descriptions still hold. */
  ghost predicate SameView(s: State, t: State) {
    && |s.handles| == |t.handles| && |s.files| == |t.files|
    && (forall h :: 0 <= h < |s.handles| ==> s.handles[h].used == t.handles[h].used)
    && (forall h :: 0 <= h < |s.handles| && s.handles[h].used ==> s.handles[h] == t.handles[h])
    && (forall d :: 0 <= d < |s.files| ==> s.files[d].refcount == t.files[d].refcount)
    && (forall d :: 0 <= d < |s.files| && s.files[d].refcount > 0 ==> s.files[d] == t.files[d])
  }

  /** dup gives the lowest free handle on the same description, and fails without a trace. */
  lemma DupMeaning(s: State, fd: int)
    requires Coherent(s)
    ensures Dup(s, fd).result == -1 <==> !Open?(s, fd) || FreeHandle(s) == -1
    ensures Dup(s, fd).result == -1 ==> Dup(s, fd).state == s
    ensures var o := Dup(s, fd);
            o.result != -1 ==>
              && o.result == FreeHandle(s) && o.state.handles == s.handles[o.result := s.handles[fd]]
              && Users(o.state.handles, s.handles[fd].file) == Users(s.handles, s.handles[fd].file) + 1
              && SameButRefs(s, o.state)
  {
    if Open?(s, fd) && FreeHandle(s) != -1 {
      UsersUpdate(s.handles, FreeHandle(s), s.handles[fd], s.handles[fd].file);
      DupCoherent(s, fd);
    }
  }

  /** Of the descriptions at most the reference counts differ, and these are exact. */
  ghost predicate SameButRefs(s: State, t: State) {
    && |t.files| == |s.files|
    && forall d :: 0 <= d < |s.files| ==> t.files[d] == s.files[d].(refcount := Users(t.handles, d))
  }

  /** close fails exactly on a handle that is not in use; otherwise that handle is free, its description
      has one reference less, and everything else is as it was. */
  lemma CloseMeaning(s: State, fd: int)
    requires Coherent(s)
    ensures var o := Close(s, fd);
            if 0 <= fd < |s.handles| && s.handles[fd].used then
              var d := s.handles[fd].file;
              && o.result == 0 && |o.state.handles| == |s.handles|
              && o.state.handles[fd] == Handle(false, 0, 0, s.handles[fd].parent, 0)
              && (forall h :: 0 <= h < |s.handles| && h != fd ==> o.state.handles[h] == s.handles[h])
              && 0 <= d < |s.files| && s.files[d].refcount > 0
              && o.state.files == s.files[d := s.files[d].(refcount := s.files[d].refcount - 1)]
            else o.result == -1 && o.state == s
  {
    if Open?(s, fd) {
      Live(s, fd);
    }
  }

  /** open succeeds if and only if a handle is free and the file is not refused.  With a free handle the
      lowest one stands for this mount, inode and parent, on a description that was dead and is now
      referred to once, at offset 0 and with these flags; everything else is as it was. */
  lemma OpenMeaning(s: State, mount: int, inode: int, parent: int, flags: int, refused: bool)
    requires Coherent(s)
    ensures var o := Open(s, mount, inode, parent, flags, refused);
            && (o.result != -1 <==> !refused && exists h :: 0 <= h < |s.handles| && !s.handles[h].used)
            && (o.result != -1 ==> o.result == FreeHandle(s))
            && (FreeHandle(s) != -1 ==>
                  var k := FreeHandle(s);
                  && |o.state.handles| == |s.handles| && |o.state.files| == |s.files|
                  && o.state.handles[k].used && o.state.handles[k].mount == mount
                  && o.state.handles[k].inode == inode && o.state.handles[k].parent == parent
                  && (forall h :: 0 <= h < |s.handles| && h != k ==> o.state.handles[h] == s.handles[h])
                  && var d := o.state.handles[k].file;
                     && 0 <= d < |s.files| && s.files[d].refcount == 0
                     && o.state.files[d].refcount == 1 && o.state.files[d].offset == 0
                     && o.state.files[d].sequential == 0 && o.state.files[d].flags == flags
                     && forall e :: 0 <= e < |s.files| && e != d ==> o.state.files[e] == s.files[e])
  {
    if FreeFile(s) == -1 {
      Exhausted(s);
    }
    if FreeHandle(s) != -1 {
      assert !s.handles[FreeHandle(s)].used;
    }
  }

  /** Closing the duplicate undoes dup. */
  lemma DupThenClose(s: State, fd: int)
    requires Coherent(s) && Dup(s, fd).result != -1
    ensures Coherent(Dup(s, fd).state)
    ensures Close(Dup(s, fd).state, Dup(s, fd).result).result == 0
    ensures SameView(s, Close(Dup(s, fd).state, Dup(s, fd).result).state)
  {
    DupCoherent(s, fd);
  }

  /** Closing what open returned undoes open. */
  lemma OpenThenClose(s: State, mount: int, inode: int, parent: int, flags: int)
    requires Coherent(s) && Open(s, mount, inode, parent, flags, false).result != -1
    ensures var o := Open(s, mount, inode, parent, flags, false);
            Coherent(o.state) && o.result == FreeHandle(s) && SameView(s, Close(o.state, o.result).state)
  {
    OpenCoherent(s, mount, inode, parent, flags, false);
  }

  /** dup2: afterwards target stands for the same open file as fd, every other handle is as it
      was, and a failure leaves no trace. */
  lemma Dup2Meaning(s: State, fd: int, target: int)
    requires Coherent(s)
    ensures Dup2(s, fd, target).result == -1 <==> !Open?(s, fd) || (fd != target && !(0 <= target < MAX_HANDLES))
    ensures Dup2(s, fd, target).result == -1 ==> Dup2(s, fd, target).state == s
    ensures var o := Dup2(s, fd, target);
            o.result != -1 ==>
              && o.result == target && o.state.handles == s.handles[target := s.handles[fd]]
              && SameButRefs(s, o.state)
  {
    Dup2Coherent(s, fd, target);
    if Dup2(s, fd, target).result != -1 {
      if fd == target {
        assert s.handles[target := s.handles[fd]] == s.handles;
      } else {
        CloseCoherent(s, target);
        assert Dup2(s, fd, target).state.handles == s.handles[target := s.handles[fd]];
      }
    }
  }

  /** A failed open leaves the tables as they were unless it is the refusal of a directory,
      which happens too late. */
  lemma OpenFailure(s: State, mount: int, inode: int, parent: int, flags: int, refused: bool)
    requires Coherent(s) && Open(s, mount, inode, parent, flags, refused).result == -1
    ensures SameView(s, Open(s, mount, inode, parent, flags, refused).state) <==> FreeHandle(s) == -1
  {
    var o := Open(s, mount, inode, parent, flags, refused);
    if FreeHandle(s) != -1 {
      if FreeFile(s) == -1 {
        Exhausted(s);
      }
      assert o.state.handles[FreeHandle(s)].used != s.handles[FreeHandle(s)].used;
    }
  }

  /** Opening a directory for writing on empty tables fails, and handle 0 is used from then on. */
  lemma RefusedExample(mount: int, inode: int, parent: int, flags: int)
    ensures Coherent(Empty())
    ensures var o := Open(Empty(), mount, inode, parent, flags, true); o.result == -1 && o.state.handles[0].used
  {
    EmptyCoherent();
    assert !Empty().handles[0].used && Empty().files[0].refcount == 0;
    assert FreeHandle(Empty()) == 0;
  }
}
