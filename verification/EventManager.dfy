/** The event manager of pth_sched.c: one pass over the rings of all waiting
    threads marks what has occurred, a second one finishes the late kinds,
    consumes condition signals and finds out who can be woken. */
module EventManager {
  import opened Wrappers
  import opened PthTypes

  /** Polled stands for timers, message ports, mutexes and functions, whose test has no side effect;
      End for the death of a thread, or of any; Late for descriptors (and for the one timer that ends
      the select call), which are decided after the first pass. */
  datatype Kind =
    | Polled
    | End(target: Option<nat>)
    | Late
    | Cond(c: nat)
    | Sem(s: nat, count: nat, decrement: bool)

  datatype Event = Event(id: nat, kind: Kind, status: Status)

  type Ring = seq<Event>

  datatype Condition = Condition(signaled: bool, broadcast: bool, handled: bool)

  datatype Semaphore = Semaphore(initialized: bool, count: nat)

  datatype Env = Env(conds: map<nat, Condition>, sems: map<nat, Semaphore>)

  /** What the first pass finds: the polled events that have occurred, and the dead threads that
      nobody has joined yet. */
  datatype Poll = Poll(ids: set<nat>, dead: set<nat>)

  /** First pass, one event. */
  function Mark(env: Env, ev: Event, polled: Poll): (Env, Event) {
    if ev.status != Pending then (env, ev) else
    match ev.kind
    case Late => (env, ev)
    case Polled => (env, if ev.id in polled.ids then ev.(status := Occurred) else ev)
    case End(None) => (env, if polled.dead != {} then ev.(status := Occurred) else ev)
    case End(Some(t)) => (env, if t in polled.dead then ev.(status := Occurred) else ev)
    case Cond(c) =>
      if c !in env.conds || !env.conds[c].signaled then (env, ev)
      else if env.conds[c].broadcast then (env, ev.(status := Occurred))
      else if env.conds[c].handled then (env, ev)
      else (env.(conds := env.conds[c := env.conds[c].(handled := true)]), ev.(status := Occurred))
    case Sem(s, count, decrement) =>
      if s !in env.sems || !env.sems[s].initialized || env.sems[s].count < count then (env, ev)
      else if decrement then
        (env.(sems := env.sems[s := env.sems[s].(count := env.sems[s].count - count)]), ev.(status := Occurred))
      else (env, ev.(status := Occurred))
  }

  /** First pass, all events of the waiting threads in the order they are visited. */
  function MarkAll(env: Env, evs: Ring, polled: Poll): (r: (Env, Ring))
    ensures |r.1| == |evs|
  {
    if evs == [] then (env, []) else
      var (env1, evs1) := MarkAll(env, evs[..|evs| - 1], polled);
      var (env2, ev) := Mark(env1, evs[|evs| - 1], polled);
      (env2, evs1 + [ev])
  }

  /** Second pass, one event: late kinds get their status, occurred condition events
      take the signal away. */
  function Clean(env: Env, ev: Event, late: map<nat, Status>): (Env, Event) {
    if ev.status == Pending then
      (env, if ev.kind.Late? && ev.id in late then ev.(status := late[ev.id]) else ev)
    else if ev.kind.Cond? && ev.kind.c in env.conds && env.conds[ev.kind.c].signaled then
      (env.(conds := env.conds[ev.kind.c := Condition(false, false, false)]), ev)
    else (env, ev)
  }

  function CleanAll(env: Env, evs: Ring, late: map<nat, Status>): (r: (Env, Ring))
    ensures |r.1| == |evs|
  {
    if evs == [] then (env, []) else
      var (env1, evs1) := CleanAll(env, evs[..|evs| - 1], late);
      var (env2, ev) := Clean(env1, evs[|evs| - 1], late);
      (env2, evs1 + [ev])
  }

  // ---- counting

  predicate WaitsOn(ev: Event, c: nat) {
    ev.status == Pending && ev.kind == Cond(c)
  }

  /** How many events still wait for condition c. */
  function Waiting(evs: Ring, c: nat): nat {
    if evs == [] then 0
    else Waiting(evs[..|evs| - 1], c) + if WaitsOn(evs[|evs| - 1], c) then 1 else 0
  }

  /** What the events granted between before and after took from semaphore s. */
  function Granted(before: Ring, after: Ring, s: nat): nat
    requires |before| == |after|
  {
    if before == [] then 0 else
      var n := |before| - 1;
      Granted(before[..n], after[..n], s) +
      if before[n].kind.Sem? && before[n].kind.s == s && before[n].kind.decrement
         && before[n].status == Pending && after[n].status == Occurred
      then before[n].kind.count else 0
  }

  ghost predicate Signal(env: Env, c: nat) {
    c in env.conds && env.conds[c].signaled && !env.conds[c].broadcast
  }

  ghost predicate Broadcast(env: Env, c: nat) {
    c in env.conds && env.conds[c].signaled && env.conds[c].broadcast
  }

  // ---- the marking pass

  /** Marking never touches an event that has already occurred and changes nothing of
      an event but its status, from pending to occurred. */
  lemma {:induction false} MarkFrame(env: Env, evs: Ring, polled: Poll)
    ensures var evs' := MarkAll(env, evs, polled).1;
            forall i :: 0 <= i < |evs| ==>
                evs'[i] == evs[i] || (evs[i].status == Pending && evs'[i] == evs[i].(status := Occurred))
  {
    if evs != [] {
      MarkFrame(env, evs[..|evs| - 1], polled);
    }
  }

  /** A plain signal releases exactly one waiter, if there is one and the signal has not
      been handled before; it then counts as handled. */
  lemma {:induction false} SignalMarksOne(env: Env, evs: Ring, polled: Poll, c: nat)
    requires Signal(env, c)
    ensures var (env', evs') := MarkAll(env, evs, polled);
            && Signal(env', c)
            && (if env.conds[c].handled || Waiting(evs, c) == 0
                then Waiting(evs', c) == Waiting(evs, c) && env'.conds[c].handled == env.conds[c].handled
                else Waiting(evs', c) == Waiting(evs, c) - 1 && env'.conds[c].handled)
  {
    if evs != [] {
      SignalMarksOne(env, evs[..|evs| - 1], polled, c);
      var (env1, evs1) := MarkAll(env, evs[..|evs| - 1], polled);
      var (env2, ev) := Mark(env1, evs[|evs| - 1], polled);
      assert (evs1 + [ev])[..|evs| - 1] == evs1;
    }
  }

  /** The released waiter is the first one in queue order. */
  lemma {:induction false} SignalMarksFirst(env: Env, evs: Ring, polled: Poll, c: nat, i: nat)
    requires Signal(env, c) && !env.conds[c].handled
    requires i < |evs| && WaitsOn(evs[i], c) && Waiting(evs[..i], c) == 0
    ensures MarkAll(env, evs, polled).1[i] == evs[i].(status := Occurred)
  {
    var n := |evs| - 1;
    if i < n {
      assert evs[..n][..i] == evs[..i];
      SignalMarksFirst(env, evs[..n], polled, c, i);
    } else {
      SignalMarksOne(env, evs[..n], polled, c);
    }
  }

  lemma {:induction false} BroadcastMarksAll(env: Env, evs: Ring, polled: Poll, c: nat)
    requires Broadcast(env, c)
    ensures var (env', evs') := MarkAll(env, evs, polled);
            c in env'.conds && env'.conds[c] == env.conds[c] && Waiting(evs', c) == 0
  {
    if evs != [] {
      BroadcastMarksAll(env, evs[..|evs| - 1], polled, c);
      var (env1, evs1) := MarkAll(env, evs[..|evs| - 1], polled);
      var (env2, ev) := Mark(env1, evs[|evs| - 1], polled);
      assert (evs1 + [ev])[..|evs| - 1] == evs1;
    }
  }

  lemma {:induction false} SilenceMarksNone(env: Env, evs: Ring, polled: Poll, c: nat)
    requires c in env.conds && !env.conds[c].signaled
    ensures var (env', evs') := MarkAll(env, evs, polled);
            c in env'.conds && env'.conds[c] == env.conds[c] && Waiting(evs', c) == Waiting(evs, c)
  {
    if evs != [] {
      SilenceMarksNone(env, evs[..|evs| - 1], polled, c);
      var (env1, evs1) := MarkAll(env, evs[..|evs| - 1], polled);
      var (env2, ev) := Mark(env1, evs[|evs| - 1], polled);
      assert (evs1 + [ev])[..|evs| - 1] == evs1;
    }
  }

  /** A semaphore loses exactly what was granted, and whoever still waits for it asks
      for more than is left. */
  lemma {:induction false} SemaphoreBalance(env: Env, evs: Ring, polled: Poll, s: nat)
    requires s in env.sems
    ensures var (env', evs') := MarkAll(env, evs, polled);
            && s in env'.sems && env'.sems[s].initialized == env.sems[s].initialized
            && env'.sems[s].count + Granted(evs, evs', s) == env.sems[s].count
            && (env.sems[s].initialized ==>
                  forall i :: 0 <= i < |evs'| && evs'[i].status == Pending && evs'[i].kind.Sem? && evs'[i].kind.s == s
                    ==> evs'[i].kind.count > env'.sems[s].count)
  {
    if evs != [] {
      SemaphoreBalance(env, evs[..|evs| - 1], polled, s);
      var (env1, evs1) := MarkAll(env, evs[..|evs| - 1], polled);
      var (env2, ev) := Mark(env1, evs[|evs| - 1], polled);
      assert (evs1 + [ev])[..|evs| - 1] == evs1;
    }
  }

  // ---- the cleanup pass

  lemma {:induction false} CleanFrame(env: Env, evs: Ring, late: map<nat, Status>)
    ensures var (env', evs') := CleanAll(env, evs, late);
            && env'.sems == env.sems
            && forall i :: 0 <= i < |evs| ==>
                 (evs'[i] == evs[i] || (evs[i].status == Pending && evs[i].kind.Late? && evs'[i].kind == evs[i].kind))
  {
    if evs != [] {
      CleanFrame(env, evs[..|evs| - 1], late);
    }
  }

  ghost predicate Answered(evs: Ring, c: nat) {
    exists i :: 0 <= i < |evs| && evs[i].kind == Cond(c) && evs[i].status != Pending
  }

  /** A condition's signal is consumed exactly when one of its events has occurred. */
  lemma {:induction false} CleanConsumes(env: Env, evs: Ring, late: map<nat, Status>, c: nat)
    requires c in env.conds
    ensures var env' := CleanAll(env, evs, late).0;
            && c in env'.conds
            && env'.conds[c] == if env.conds[c].signaled && Answered(evs, c)
                                then Condition(false, false, false) else env.conds[c]
  {
    if evs != [] {
      var n := |evs| - 1;
      CleanConsumes(env, evs[..n], late, c);
      assert Answered(evs, c) <==> Answered(evs[..n], c) || (evs[n].kind == Cond(c) && evs[n].status != Pending) by {
        if Answered(evs[..n], c) {
          var i :| 0 <= i < n && evs[..n][i].kind == Cond(c) && evs[..n][i].status != Pending;
          assert evs[i].kind == Cond(c);
        }
        if Answered(evs, c) {
          var i :| 0 <= i < |evs| && evs[i].kind == Cond(c) && evs[i].status != Pending;
          assert i < n ==> evs[..n][i] == evs[i];
        }
      }
    }
  }

  lemma {:induction false} WaiterExists(evs: Ring, c: nat) returns (i: nat)
    requires Waiting(evs, c) > 0
    ensures i < |evs| && WaitsOn(evs[i], c) && Waiting(evs[..i], c) == 0
  {
    var n := |evs| - 1;
    if Waiting(evs[..n], c) > 0 {
      i := WaiterExists(evs[..n], c);
      assert evs[..n][..i] == evs[..i];
    } else {
      i := n;
    }
  }

  /** Both passes together: a fresh plain signal with somebody waiting wakes exactly one
      of them, the first, and is gone afterwards. */
  lemma SignalDelivered(env: Env, evs: Ring, polled: Poll, late: map<nat, Status>, c: nat)
    requires Signal(env, c) && !env.conds[c].handled && Waiting(evs, c) > 0
    ensures var (env1, evs1) := MarkAll(env, evs, polled);
            && Waiting(evs1, c) == Waiting(evs, c) - 1
            && c in CleanAll(env1, evs1, late).0.conds
            && CleanAll(env1, evs1, late).0.conds[c] == Condition(false, false, false)
  {
    var i := WaiterExists(evs, c);
    SignalMarksOne(env, evs, polled, c);
    SignalMarksFirst(env, evs, polled, c, i);
    var (env1, evs1) := MarkAll(env, evs, polled);
    assert evs1[i].kind == Cond(c) && evs1[i].status != Pending;
    CleanConsumes(env1, evs1, late, c);
  }

  /** A broadcast with somebody waiting leaves nobody waiting and is gone afterwards. */
  lemma BroadcastDelivered(env: Env, evs: Ring, polled: Poll, late: map<nat, Status>, c: nat)
    requires Broadcast(env, c) && Waiting(evs, c) > 0
    ensures var (env1, evs1) := MarkAll(env, evs, polled);
            && Waiting(evs1, c) == 0
            && c in CleanAll(env1, evs1, late).0.conds
            && CleanAll(env1, evs1, late).0.conds[c] == Condition(false, false, false)
  {
    var i := WaiterExists(evs, c);
    BroadcastMarksAll(env, evs, polled, c);
    MarkFrame(env, evs, polled);
    var (env1, evs1) := MarkAll(env, evs, polled);
    NobodyWaits(evs1, c, i);
    assert evs1[i].kind == Cond(c) && evs1[i].status != Pending;
    CleanConsumes(env1, evs1, late, c);
  }

  /** The second pass takes nobody's wait away and gives nobody a new one. */
  lemma {:induction false} CleanWaiting(env: Env, evs: Ring, late: map<nat, Status>, c: nat)
    ensures Waiting(CleanAll(env, evs, late).1, c) == Waiting(evs, c)
  {
    if evs != [] {
      var n := |evs| - 1;
      CleanWaiting(env, evs[..n], late, c);
      var (env1, evs1) := CleanAll(env, evs[..n], late);
      var (env2, ev) := Clean(env1, evs[n], late);
      assert (evs1 + [ev])[..n] == evs1;
    }
  }

  /** Nor does it grant anything. */
  lemma {:induction false} CleanGranted(before: Ring, env: Env, evs: Ring, late: map<nat, Status>, s: nat)
    requires |before| == |evs| && forall i :: 0 <= i < |evs| ==> before[i].kind == evs[i].kind
    ensures Granted(before, CleanAll(env, evs, late).1, s) == Granted(before, evs, s)
  {
    if evs != [] {
      var n := |evs| - 1;
      CleanGranted(before[..n], env, evs[..n], late, s);
      var (env1, evs1) := CleanAll(env, evs[..n], late);
      var (env2, ev) := Clean(env1, evs[n], late);
      assert (evs1 + [ev])[..n] == evs1;
    }
  }

  /** When one wait fewer is left and none is new, only one can have ended. */
  lemma {:induction false} OneEnded(before: Ring, after: Ring, c: nat, i: nat, j: nat)
    requires |before| == |after| && Waiting(after, c) + 1 == Waiting(before, c)
    requires forall k :: 0 <= k < |before| && WaitsOn(after[k], c) ==> WaitsOn(before[k], c)
    requires i < j < |before|
    ensures !(WaitsOn(before[i], c) && !WaitsOn(after[i], c) && WaitsOn(before[j], c) && !WaitsOn(after[j], c))
  {
    var n := |before| - 1;
    FewerWait(before[..n], after[..n], c);
    if j < n {
      if WaitsOn(before[n], c) == WaitsOn(after[n], c) {
        OneEnded(before[..n], after[..n], c, i, j);
      } else {
        SameWait(before[..n], after[..n], c, i);
      }
    } else if WaitsOn(before[n], c) && !WaitsOn(after[n], c) {
      SameWait(before[..n], after[..n], c, i);
    }
  }

  lemma {:induction false} FewerWait(before: Ring, after: Ring, c: nat)
    requires |before| == |after| && forall k :: 0 <= k < |before| && WaitsOn(after[k], c) ==> WaitsOn(before[k], c)
    ensures Waiting(after, c) <= Waiting(before, c)
  {
    if before != [] {
      FewerWait(before[..|before| - 1], after[..|before| - 1], c);
    }
  }

  lemma {:induction false} SameWait(before: Ring, after: Ring, c: nat, i: nat)
    requires |before| == |after| && forall k :: 0 <= k < |before| && WaitsOn(after[k], c) ==> WaitsOn(before[k], c)
    requires Waiting(after, c) == Waiting(before, c) && i < |before|
    ensures WaitsOn(after[i], c) <==> WaitsOn(before[i], c)
  {
    var n := |before| - 1;
    FewerWait(before[..n], after[..n], c);
    if i < n {
      SameWait(before[..n], after[..n], c, i);
    }
  }

  lemma {:induction false} NobodyWaits(evs: Ring, c: nat, i: nat)
    requires Waiting(evs, c) == 0 && i < |evs|
    ensures !WaitsOn(evs[i], c)
  {
    if i < |evs| - 1 {
      NobodyWaits(evs[..|evs| - 1], c, i);
    }
  }

  // ---- thread by thread

  function Flatten(rings: seq<Ring>): Ring {
    if rings == [] then [] else Flatten(rings[..|rings| - 1]) + rings[|rings| - 1]
  }

  function MarkRings(env: Env, rings: seq<Ring>, polled: Poll): (r: (Env, seq<Ring>))
    ensures |r.1| == |rings|
    ensures forall i :: 0 <= i < |rings| ==> |r.1[i]| == |rings[i]|
  {
    if rings == [] then (env, []) else
      var (env1, rs) := MarkRings(env, rings[..|rings| - 1], polled);
      var (env2, r) := MarkAll(env1, rings[|rings| - 1], polled);
      (env2, rs + [r])
  }

  function CleanRings(env: Env, rings: seq<Ring>, late: map<nat, Status>): (r: (Env, seq<Ring>))
    ensures |r.1| == |rings|
    ensures forall i :: 0 <= i < |rings| ==> |r.1[i]| == |rings[i]|
  {
    if rings == [] then (env, []) else
      var (env1, rs) := CleanRings(env, rings[..|rings| - 1], late);
      var (env2, r) := CleanAll(env1, rings[|rings| - 1], late);
      (env2, rs + [r])
  }

  lemma {:induction false} MarkConcat(env: Env, a: Ring, b: Ring, polled: Poll)
    ensures var (env1, a1) := MarkAll(env, a, polled);
            var (env2, b1) := MarkAll(env1, b, polled);
            MarkAll(env, a + b, polled) == (env2, a1 + b1)
  {
    if b == [] {
      assert a + b == a;
      assert MarkAll(env, a, polled).1 + [] == MarkAll(env, a, polled).1;
    } else {
      assert (a + b)[..|a + b| - 1] == a + b[..|b| - 1];
      MarkConcat(env, a, b[..|b| - 1], polled);
      var (env1, a1) := MarkAll(env, a, polled);
      var (env2, b1) := MarkAll(env1, b[..|b| - 1], polled);
      var (env3, ev) := Mark(env2, b[|b| - 1], polled);
      assert (a1 + b1) + [ev] == a1 + (b1 + [ev]);
    }
  }

  lemma {:induction false} CleanConcat(env: Env, a: Ring, b: Ring, late: map<nat, Status>)
    ensures var (env1, a1) := CleanAll(env, a, late);
            var (env2, b1) := CleanAll(env1, b, late);
            CleanAll(env, a + b, late) == (env2, a1 + b1)
  {
    if b == [] {
      assert a + b == a;
      assert CleanAll(env, a, late).1 + [] == CleanAll(env, a, late).1;
    } else {
      assert (a + b)[..|a + b| - 1] == a + b[..|b| - 1];
      CleanConcat(env, a, b[..|b| - 1], late);
      var (env1, a1) := CleanAll(env, a, late);
      var (env2, b1) := CleanAll(env1, b[..|b| - 1], late);
      var (env3, ev) := Clean(env2, b[|b| - 1], late);
      assert (a1 + b1) + [ev] == a1 + (b1 + [ev]);
    }
  }

  lemma {:induction false} MarkRingsPrefix(env: Env, rings: seq<Ring>, polled: Poll, i: nat)
    requires i <= |rings|
    ensures MarkRings(env, rings[..i], polled).1 == MarkRings(env, rings, polled).1[..i]
  {
    if i == |rings| {
      assert rings[..i] == rings;
    } else {
      var n := |rings| - 1;
      MarkRingsPrefix(env, rings[..n], polled, i);
      assert rings[..n][..i] == rings[..i];
    }
  }

  lemma {:induction false} CleanRingsPrefix(env: Env, rings: seq<Ring>, late: map<nat, Status>, i: nat)
    requires i <= |rings|
    ensures CleanRings(env, rings[..i], late).1 == CleanRings(env, rings, late).1[..i]
  {
    var n := |rings|;
    if i < n {
      assert rings[..n - 1][..i] == rings[..i];
      CleanRingsPrefix(env, rings[..n - 1], late, i);
    } else {
      assert rings[..i] == rings;
    }
  }

  /** Going thread by thread is going through all events once, in queue order. */
  lemma {:induction false} MarkRingsFlat(env: Env, rings: seq<Ring>, polled: Poll)
    ensures var (env', rs) := MarkRings(env, rings, polled);
            MarkAll(env, Flatten(rings), polled) == (env', Flatten(rs))
  {
    if rings != [] {
      var n := |rings| - 1;
      MarkRingsFlat(env, rings[..n], polled);
      MarkConcat(env, Flatten(rings[..n]), rings[n], polled);
      assert MarkRings(env, rings, polled).1[..n] == MarkRings(env, rings[..n], polled).1;
    }
  }

  lemma {:induction false} CleanRingsFlat(env: Env, rings: seq<Ring>, late: map<nat, Status>)
    ensures var (env', rs) := CleanRings(env, rings, late);
            CleanAll(env, Flatten(rings), late) == (env', Flatten(rs))
  {
    if rings != [] {
      var n := |rings| - 1;
      CleanRingsFlat(env, rings[..n], late);
      CleanConcat(env, Flatten(rings[..n]), rings[n], late);
      assert CleanRings(env, rings, late).1[..n] == CleanRings(env, rings[..n], late).1;
    }
  }

  method MarkRing(env: Env, ring: Ring, polled: Poll) returns (env': Env, ring': Ring)
    ensures (env', ring') == MarkAll(env, ring, polled)
  {
    env', ring' := env, [];
    var i := 0;
    while i < |ring|
      invariant 0 <= i <= |ring|
      invariant (env', ring') == MarkAll(env, ring[..i], polled)
    {
      var (e, ev) := Mark(env', ring[i], polled);
      assert ring[..i + 1][..i] == ring[..i];
      env', ring' := e, ring' + [ev];
      i := i + 1;
    }
    assert ring[..|ring|] == ring;
  }

  predicate AnyOccurred(ring: Ring) {
    exists i :: 0 <= i < |ring| && ring[i].status != Pending
  }

  lemma AnyOccurredSnoc(ring: Ring, ev: Event)
    ensures AnyOccurred(ring + [ev]) == (AnyOccurred(ring) || ev.status != Pending)
  {
    var r := ring + [ev];
    assert r[|ring|] == ev;
    if AnyOccurred(ring) {
      var i :| 0 <= i < |ring| && ring[i].status != Pending;
      assert r[i] == ring[i];
    }
  }

  method CleanRing(env: Env, ring: Ring, late: map<nat, Status>) returns (env': Env, ring': Ring, any: bool)
    ensures (env', ring') == CleanAll(env, ring, late)
    ensures any == AnyOccurred(ring')
  {
    env', ring', any := env, [], false;
    var i := 0;
    while i < |ring|
      invariant 0 <= i <= |ring|
      invariant (env', ring') == CleanAll(env, ring[..i], late)
      invariant any == AnyOccurred(ring')
    {
      var (e, ev) := Clean(env', ring[i], late);
      assert ring[..i + 1][..i] == ring[..i];
      AnyOccurredSnoc(ring', ev);
      env', ring' := e, ring' + [ev];
      if ev.status != Pending {
        any := true;
      }
      i := i + 1;
    }
    assert ring[..|ring|] == ring;
  }
}
