/** The manager-less exchange of lib/mapreduce/eachtoother_comm.c: every node runs the same
    double loop over the same node list, and channels may be rendezvous or one message deep. */
module EachToOther {

  import opened Sequences

  datatype Action = Send(to: nat) | Receive(from: nat)

  // ---- one node's program

  /** The inner loop: a message to every other entry of the list. */
  function Sends(nodes: seq<int>, own: int): seq<Action> {
    if nodes == [] then [] else
      var j := |nodes| - 1;
      Sends(nodes[..j], own) + if nodes[j] != own then [Send(j)] else []
  }

  /** The outer loop over the first i entries of the list. */
  function Program(nodes: seq<int>, own: int, i: nat): seq<Action>
    requires i <= |nodes|
  {
    if i == 0 then [] else
      Program(nodes, own, i - 1) +
      if nodes[i - 1] == own then Sends(nodes, own) else [Receive(i - 1)]
  }

  method StartEachToOther(nodes: seq<int>, own: int) returns (trace: seq<Action>)
    ensures trace == Program(nodes, own, |nodes|)
  {
    trace := [];
    var i := 0;
    while i < |nodes|
      invariant 0 <= i <= |nodes| && trace == Program(nodes, own, i)
    {
      if nodes[i] == own {
        var j := 0;
        ghost var before := trace;
        while j < |nodes|
          invariant 0 <= j <= |nodes| && trace == before + Sends(nodes[..j], own)
        {
          assert nodes[..j + 1][..j] == nodes[..j];
          if nodes[j] != own {
            trace := trace + [Send(j)];
          }
          j := j + 1;
        }
        assert nodes[..j] == nodes;
      }
      if nodes[i] != own {
        trace := trace + [Receive(i)];
      }
      i := i + 1;
    }
  }

  /** What node k of n does in its p-th communication. */
  function ActionAt(n: nat, k: nat, p: nat): Action
    requires k < n
  {
    if p < k then Receive(p)
    else if p < k + n - 1 then Send(if p - k < k then p - k else p - k + 1)
    else Receive(p + 2 - n)
  }

  function Length(n: nat): nat
    requires n > 0
  {
    2 * (n - 1)
  }

  lemma {:induction false} SendsShape(nodes: seq<int>, own: int, k: nat)
    requires Unique(nodes) && k < |nodes| && nodes[k] == own
    ensures |Sends(nodes, own)| == |nodes| - 1
    ensures forall p :: 0 <= p < |nodes| - 1 ==> Sends(nodes, own)[p] == Send(if p < k then p else p + 1)
  {
    var j := |nodes| - 1;
    if k < j {
      SendsShape(nodes[..j], own, k);
    } else {
      SendsAbsent(nodes[..j], own);
    }
  }

  lemma {:induction false} SendsAbsent(nodes: seq<int>, own: int)
    requires own !in nodes
    ensures |Sends(nodes, own)| == |nodes|
    ensures forall p :: 0 <= p < |nodes| ==> Sends(nodes, own)[p] == Send(p)
  {
    if nodes != [] {
      SendsAbsent(nodes[..|nodes| - 1], own);
    }
  }

  lemma {:induction false} ProgramShapeUpTo(nodes: seq<int>, own: int, k: nat, i: nat)
    requires Unique(nodes) && k < |nodes| && nodes[k] == own && i <= |nodes|
    ensures |Program(nodes, own, i)| == if i <= k then i else i + |nodes| - 2
    ensures forall p :: 0 <= p < |Program(nodes, own, i)| ==> Program(nodes, own, i)[p] == ActionAt(|nodes|, k, p)
  {
    if i > 0 {
      ProgramShapeUpTo(nodes, own, k, i - 1);
      SendsShape(nodes, own, k);
    }
  }

  /** A node that stands at place k of the list receives from all before it, sends to all, and
      receives from all behind it. */
  lemma ProgramShape(nodes: seq<int>, own: int, k: nat)
    requires Unique(nodes) && k < |nodes| && nodes[k] == own
    ensures var t := Program(nodes, own, |nodes|);
            |t| == Length(|nodes|) && forall p :: 0 <= p < |t| ==> t[p] == ActionAt(|nodes|, k, p)
  {
    ProgramShapeUpTo(nodes, own, k, |nodes|);
  }

  function SendPos(k: nat, j: nat): nat
    requires j != k
  {
    if j < k then k + j else k + j - 1
  }

  function ReceivePos(n: nat, k: nat, i: nat): nat
    requires i != k && k < n && i < n
  {
    if i < k then i else n - 2 + i
  }

  // ---- all nodes together

  /** pc: how many communications each node has completed; chan: messages under way, by sender
      and receiver; got: what each node has stored, by the sender's place in the list. */
  datatype Net<T> = Net(pc: seq<nat>, chan: map<(int, int), T>, got: seq<map<int, T>>)

  /** Setting of a run: the list of node ids that every node has computed, what the node at place i of
      it sends, and which channels can hold a message. */
  datatype Setting<T> = Setting(nodes: seq<int>, payload: seq<T>, buffered: set<(int, int)>)

  datatype Move = Sync(i: int, j: int) | Put(i: int, j: int) | Take(i: int, j: int)

  ghost predicate Pair(n: int, i: int, j: int) {
    0 <= i < n && 0 <= j < n && i != j
  }

  ghost predicate Shaped<T>(c: Setting<T>, s: Net<T>) {
    |c.payload| > 0 && |s.pc| == |s.got| == |c.payload| == |c.nodes| && Unique(c.nodes)
  }

  /** What node k does, by its loops over the list. */
  ghost function ProgramOf<T>(c: Setting<T>, k: nat): seq<Action>
    requires k < |c.nodes|
  {
    Program(c.nodes, c.nodes[k], |c.nodes|)
  }

  ghost predicate AtSend<T>(c: Setting<T>, s: Net<T>, i: int, j: int)
    requires Shaped(c, s) && Pair(|c.payload|, i, j)
  {
    s.pc[i] < |ProgramOf(c, i)| && ProgramOf(c, i)[s.pc[i]] == Send(j)
  }

  ghost predicate AtReceive<T>(c: Setting<T>, s: Net<T>, j: int, i: int)
    requires Shaped(c, s) && Pair(|c.payload|, i, j)
  {
    s.pc[j] < |ProgramOf(c, j)| && ProgramOf(c, j)[s.pc[j]] == Receive(i)
  }

  /** Where in their programs two nodes have to be for a message from one to the other. */
  lemma Places<T>(c: Setting<T>, s: Net<T>, i: nat, j: nat)
    requires Shaped(c, s) && Pair(|c.payload|, i, j)
    ensures AtSend(c, s, i, j) <==> s.pc[i] == SendPos(i, j)
    ensures AtReceive(c, s, j, i) <==> s.pc[j] == ReceivePos(|c.payload|, j, i)
    ensures SendPos(i, j) < Length(|c.payload|) && ReceivePos(|c.payload|, j, i) < Length(|c.payload|)
  {
    hide Program, ActionAt, Unique, SendPos, ReceivePos;
    var n := |c.payload|;
    ProgramShape(c.nodes, c.nodes[i], i);
    ProgramShape(c.nodes, c.nodes[j], j);
    if s.pc[i] < Length(n) {
      Positions(n, i, s.pc[i], j);
    }
    if s.pc[j] < Length(n) {
      Positions(n, j, s.pc[j], i);
    }
    Positions(n, i, 0, j);
    Positions(n, j, 0, i);
  }

  ghost predicate Enabled<T>(c: Setting<T>, s: Net<T>, m: Move)
    requires Shaped(c, s)
  {
    Pair(|c.payload|, m.i, m.j) &&
    match m
    case Sync(i, j) => (i, j) !in c.buffered && AtSend(c, s, i, j) && AtReceive(c, s, j, i)
    case Put(i, j) => (i, j) in c.buffered && AtSend(c, s, i, j) && (i, j) !in s.chan
    case Take(i, j) => (i, j) in s.chan && AtReceive(c, s, j, i)
  }

  ghost function Step<T>(c: Setting<T>, s: Net<T>, m: Move): Net<T>
    requires Shaped(c, s) && Enabled(c, s, m)
  {
    match m
    case Sync(i, j) => Net(s.pc[i := s.pc[i] + 1][j := s.pc[j] + 1], s.chan, s.got[j := s.got[j][i := c.payload[i]]])
    case Put(i, j) => Net(s.pc[i := s.pc[i] + 1], s.chan[(i, j) := c.payload[i]], s.got)
    case Take(i, j) => Net(s.pc[j := s.pc[j] + 1], s.chan - {(i, j)}, s.got[j := s.got[j][i := s.chan[(i, j)]]])
  }

  ghost predicate Init<T>(c: Setting<T>, s: Net<T>) {
    && Shaped(c, s) && s.chan == map[]
    && forall k :: 0 <= k < |s.pc| ==> s.pc[k] == 0 && s.got[k] == map[]
  }

  ghost predicate Sent<T>(c: Setting<T>, s: Net<T>, i: int, j: int)
    requires Shaped(c, s) && Pair(|c.payload|, i, j)
  {
    s.pc[i] > SendPos(i, j)
  }

  ghost predicate Received<T>(c: Setting<T>, s: Net<T>, i: int, j: int)
    requires Shaped(c, s) && Pair(|c.payload|, i, j)
  {
    s.pc[j] > ReceivePos(|c.payload|, j, i)
  }

  /** Every message is in its channel exactly between its sending and its receipt, and is
      stored unchanged at its sender's place. */
  ghost predicate Inv<T>(c: Setting<T>, s: Net<T>) {
    && Shaped(c, s)
    && (forall k :: 0 <= k < |s.pc| ==> s.pc[k] <= Length(|s.pc|))
    && (forall e :: e in s.chan ==> Pair(|s.pc|, e.0, e.1) && s.chan[e] == c.payload[e.0])
    && (forall j, i :: 0 <= j < |s.pc| && i in s.got[j] ==> Pair(|s.pc|, i, j) && s.got[j][i] == c.payload[i])
    && (forall i, j {:trigger Pair(|s.pc|, i, j)} :: Pair(|s.pc|, i, j) ==>
          && (Received(c, s, i, j) ==> Sent(c, s, i, j))
          && ((i, j) in s.chan <==> Sent(c, s, i, j) && !Received(c, s, i, j))
          && ((i, j) in s.chan ==> (i, j) in c.buffered)
          && (i in s.got[j] <==> Received(c, s, i, j)))
  }

  lemma InitInv<T>(c: Setting<T>, s: Net<T>)
    requires Init(c, s)
    ensures Inv(c, s)
  {
  }

  /** A node stands at one communication only. */
  lemma Positions(n: nat, k: nat, p: nat, j: nat)
    requires k < n && j < n && j != k && p < Length(n)
    ensures ActionAt(n, k, p) == Send(j) <==> p == SendPos(k, j)
    ensures ActionAt(n, k, p) == Receive(j) <==> p == ReceivePos(n, k, j)
    ensures SendPos(k, j) < Length(n) && ReceivePos(n, k, j) < Length(n)
  {
  }

  lemma SyncMoves<T>(c: Setting<T>, s: Net<T>, i: int, j: int)
    requires Shaped(c, s) && Enabled(c, s, Sync(i, j))
    ensures var s' := Step(c, s, Sync(i, j));
            forall a, b :: Pair(|s.pc|, a, b) ==>
              && (Sent(c, s', a, b) <==> Sent(c, s, a, b) || (a == i && b == j))
              && (Received(c, s', a, b) <==> Received(c, s, a, b) || (a == i && b == j))
  {
    hide AtSend, AtReceive;
    var s' := Step(c, s, Sync(i, j));
    Places(c, s, i, j);
    forall a, b | Pair(|s.pc|, a, b)
      ensures Sent(c, s', a, b) <==> Sent(c, s, a, b) || (a == i && b == j)
      ensures Received(c, s', a, b) <==> Received(c, s, a, b) || (a == i && b == j)
    {
      Distances(|s.pc|, a, b, i, j);
    }
  }

  /** At its place before sending a message has not been sent, before receiving not been received. */
  lemma NotYet<T>(c: Setting<T>, s: Net<T>, i: int, j: int)
    requires Shaped(c, s) && Pair(|s.pc|, i, j)
    ensures s.pc[i] == SendPos(i, j) ==> !Sent(c, s, i, j)
    ensures s.pc[j] == ReceivePos(|s.pc|, j, i) ==> !Received(c, s, i, j)
  {
  }

  lemma SyncKeeps<T>(c: Setting<T>, s: Net<T>, i: int, j: int)
    requires Inv(c, s) && Enabled(c, s, Sync(i, j))
    ensures Inv(c, Step(c, s, Sync(i, j)))
  {
    hide Sent, Received, AtSend, AtReceive, SendPos, ReceivePos;
    SyncMoves(c, s, i, j);
    Places(c, s, i, j);
    assert Pair(|s.pc|, i, j);
  }

  /** Different communications of a node have different places in its program. */
  lemma Distances(n: nat, a: nat, b: nat, i: nat, j: nat)
    requires Pair(n, a, b) && Pair(n, i, j)
    ensures a == i && b != j ==> SendPos(a, b) != SendPos(i, j)
    ensures b == j && a != i ==> ReceivePos(n, b, a) != ReceivePos(n, j, i)
    ensures a == j ==> SendPos(a, b) != ReceivePos(n, j, i)
    ensures b == i ==> ReceivePos(n, b, a) != SendPos(i, j)
  {
  }

  lemma PutMoves<T>(c: Setting<T>, s: Net<T>, i: int, j: int)
    requires Shaped(c, s) && Enabled(c, s, Put(i, j))
    ensures var s' := Step(c, s, Put(i, j));
            forall a, b :: Pair(|s.pc|, a, b) ==>
              && (Sent(c, s', a, b) <==> Sent(c, s, a, b) || (a == i && b == j))
              && (Received(c, s', a, b) <==> Received(c, s, a, b))
  {
    hide AtSend, AtReceive;
    var s' := Step(c, s, Put(i, j));
    Places(c, s, i, j);
    forall a, b | Pair(|s.pc|, a, b)
      ensures Sent(c, s', a, b) <==> Sent(c, s, a, b) || (a == i && b == j)
      ensures Received(c, s', a, b) <==> Received(c, s, a, b)
    {
      Distances(|s.pc|, a, b, i, j);
    }
  }

  lemma PutKeeps<T>(c: Setting<T>, s: Net<T>, i: int, j: int)
    requires Inv(c, s) && Enabled(c, s, Put(i, j))
    ensures Inv(c, Step(c, s, Put(i, j)))
  {
    hide Sent, Received, AtSend, AtReceive, SendPos, ReceivePos;
    PutMoves(c, s, i, j);
    Places(c, s, i, j);
    NotYet(c, s, i, j);
    assert Pair(|s.pc|, i, j);
  }

  lemma TakeMoves<T>(c: Setting<T>, s: Net<T>, i: int, j: int)
    requires Shaped(c, s) && Enabled(c, s, Take(i, j))
    ensures var s' := Step(c, s, Take(i, j));
            forall a, b :: Pair(|s.pc|, a, b) ==>
              && (Sent(c, s', a, b) <==> Sent(c, s, a, b))
              && (Received(c, s', a, b) <==> Received(c, s, a, b) || (a == i && b == j))
  {
    hide AtSend, AtReceive;
    var s' := Step(c, s, Take(i, j));
    Places(c, s, i, j);
    forall a, b | Pair(|s.pc|, a, b)
      ensures Sent(c, s', a, b) <==> Sent(c, s, a, b)
      ensures Received(c, s', a, b) <==> Received(c, s, a, b) || (a == i && b == j)
    {
      Distances(|s.pc|, a, b, i, j);
    }
  }

  lemma TakeKeeps<T>(c: Setting<T>, s: Net<T>, i: int, j: int)
    requires Inv(c, s) && Enabled(c, s, Take(i, j))
    ensures Inv(c, Step(c, s, Take(i, j)))
  {
    hide Sent, Received, AtSend, AtReceive, SendPos, ReceivePos;
    TakeMoves(c, s, i, j);
    Places(c, s, i, j);
    NotYet(c, s, i, j);
    assert Pair(|s.pc|, i, j);
  }

  /** Every step keeps the invariant, and a received message always finds its place empty. */
  lemma StepKeeps<T>(c: Setting<T>, s: Net<T>, m: Move)
    requires Inv(c, s) && Enabled(c, s, m)
    ensures Inv(c, Step(c, s, m))
    ensures m.Sync? || m.Take? ==> m.i !in s.got[m.j]
  {
    hide AtSend, AtReceive;
    assert Pair(|s.pc|, m.i, m.j);
    Places(c, s, m.i, m.j);
    match m {
      case Sync(i, j) => SyncKeeps(c, s, i, j);
      case Put(i, j) => PutKeeps(c, s, i, j);
      case Take(i, j) => TakeKeeps(c, s, i, j);
    }
  }

  // ---- progress

  ghost predicate Done<T>(c: Setting<T>, s: Net<T>)
    requires Shaped(c, s)
  {
    forall k :: 0 <= k < |s.pc| ==> s.pc[k] == Length(|s.pc|)
  }

  ghost predicate AllReceived<T>(c: Setting<T>, s: Net<T>, i: nat, j: nat)
    requires Shaped(c, s)
  {
    forall a, b :: Pair(|s.pc|, a, b) && (a < i || (a == i && b < j)) ==> Received(c, s, a, b)
  }

  /** The first message, by sender and then receiver, that has not arrived yet. */
  lemma FirstMissing<T>(c: Setting<T>, s: Net<T>) returns (i: nat, j: nat)
    requires Inv(c, s) && !Done(c, s)
    ensures Pair(|s.pc|, i, j) && !Received(c, s, i, j) && AllReceived(c, s, i, j)
  {
    var n := |s.pc|;
    i := 0;
    while i < n
      invariant 0 <= i <= n && AllReceived(c, s, i, 0)
    {
      j := 0;
      while j < n
        invariant 0 <= j <= n && AllReceived(c, s, i, j)
      {
        if i != j && !Received(c, s, i, j) {
          return;
        }
        j := j + 1;
      }
      i := i + 1;
    }
    forall k | 0 <= k < n
      ensures s.pc[k] == Length(n)
    {
      if n > 1 {
        var last := if k == n - 1 then n - 2 else n - 1;
        assert Pair(n, last, k) && Pair(n, k, last);
        assert Received(c, s, last, k) && Received(c, s, k, last);
      }
    }
    assert false;
  }

  /** Both ends of the first missing message have finished everything they do before it. */
  lemma Reached<T>(c: Setting<T>, s: Net<T>, i: nat, j: nat)
    requires Inv(c, s) && Pair(|s.pc|, i, j) && AllReceived(c, s, i, j)
    ensures s.pc[i] >= SendPos(i, j) && s.pc[j] >= ReceivePos(|s.pc|, j, i)
  {
    var n := |s.pc|;
    // the sender
    if i > 0 {
      assert Pair(n, i - 1, i) && Received(c, s, i - 1, i);
    }
    var b := if j == 0 || (j == 1 && i == 0) then -1 else if j - 1 == i then j - 2 else j - 1;
    if b >= 0 {
      assert Pair(n, i, b) && Received(c, s, i, b) && Sent(c, s, i, b);
    }
    // the receiver
    var a := if i == 0 || (i == 1 && j == 0) then -1 else if i - 1 == j then i - 2 else i - 1;
    if i < j {
      if i > 0 {
        assert Pair(n, i - 1, j) && Received(c, s, i - 1, j);
      }
    } else {
      var last := if j == n - 1 then n - 2 else n - 1;
      assert Pair(n, j, last) && Received(c, s, j, last) && Sent(c, s, j, last);
      if i - 1 > j {
        assert Pair(n, i - 1, j) && Received(c, s, i - 1, j);
      }
    }
  }

  /** No deadlock: as long as a node is not finished some communication can happen, even if no
      channel holds a message. */
  lemma Progress<T>(c: Setting<T>, s: Net<T>) returns (m: Move)
    requires Inv(c, s) && !Done(c, s)
    ensures Enabled(c, s, m)
  {
    hide AtSend, AtReceive;
    var i, j := FirstMissing(c, s);
    Reached(c, s, i, j);
    assert Pair(|s.pc|, i, j);
    Places(c, s, i, j);
    m := if (i, j) in s.chan then Take(i, j) else if (i, j) in c.buffered then Put(i, j) else Sync(i, j);
  }

  // ---- termination and outcome

  function Total(pc: seq<nat>): nat {
    if pc == [] then 0 else Total(pc[..|pc| - 1]) + pc[|pc| - 1]
  }

  lemma {:induction false} TotalUpdate(pc: seq<nat>, k: nat, v: nat)
    requires k < |pc|
    ensures Total(pc[k := v]) == Total(pc) - pc[k] + v
  {
    var n := |pc| - 1;
    if k < n {
      assert pc[k := v][..n] == pc[..n][k := v];
      TotalUpdate(pc[..n], k, v);
    } else {
      assert pc[k := v][..n] == pc[..n];
    }
  }

  lemma {:induction false} TotalBound(pc: seq<nat>, m: nat)
    requires forall k :: 0 <= k < |pc| ==> pc[k] <= m
    ensures Total(pc) <= |pc| * m
  {
    if pc != [] {
      TotalBound(pc[..|pc| - 1], m);
    }
  }

  lemma StepCounts<T>(c: Setting<T>, s: Net<T>, m: Move)
    requires Shaped(c, s) && Enabled(c, s, m)
    ensures Total(Step(c, s, m).pc) > Total(s.pc)
  {
    hide Inv, Total, AtSend, AtReceive;
    match m {
      case Sync(i, j) =>
        TotalUpdate(s.pc, i, s.pc[i] + 1);
        TotalUpdate(s.pc[i := s.pc[i] + 1], j, s.pc[j] + 1);
      case Put(i, j) => TotalUpdate(s.pc, i, s.pc[i] + 1);
      case Take(i, j) => TotalUpdate(s.pc, j, s.pc[j] + 1);
    }
  }

  ghost predicate IsRun<T>(c: Setting<T>, s: Net<T>, moves: seq<Move>, s': Net<T>)
    requires Shaped(c, s)
    decreases |moves|
  {
    if moves == [] then s' == s
    else Enabled(c, s, moves[0]) && IsRun(c, Step(c, s, moves[0]), moves[1..], s')
  }

  lemma {:induction false} RunKeeps<T>(c: Setting<T>, s: Net<T>, moves: seq<Move>, s': Net<T>)
    requires Inv(c, s) && IsRun(c, s, moves, s')
    ensures Inv(c, s') && Total(s.pc) + |moves| <= Total(s'.pc)
    decreases |moves|
  {
    if moves != [] {
      StepKeeps(c, s, moves[0]);
      StepCounts(c, s, moves[0]);
      RunKeeps(c, Step(c, s, moves[0]), moves[1..], s');
    }
  }

  /** Every run ends: no run has more than 2 n (n - 1) communications. */
  lemma RunsEnd<T>(c: Setting<T>, s: Net<T>, moves: seq<Move>, s': Net<T>)
    requires Init(c, s) && IsRun(c, s, moves, s')
    ensures |moves| <= |s.pc| * Length(|s.pc|)
  {
    InitInv(c, s);
    RunKeeps(c, s, moves, s');
    TotalBound(s'.pc, Length(|s.pc|));
  }

  /** A run that cannot go on has delivered everything: each node holds exactly one message from
      every other node, the one that node sent, at that node's place, and no channel holds any. */
  lemma StuckIsComplete<T>(c: Setting<T>, s: Net<T>, moves: seq<Move>, s': Net<T>)
    requires Init(c, s) && IsRun(c, s, moves, s') && Shaped(c, s')
    requires forall m :: !Enabled(c, s', m)
    ensures Done(c, s') && s'.chan == map[]
    ensures forall j :: 0 <= j < |s'.got| ==>
              s'.got[j] == map i | 0 <= i < |s'.got| && i != j :: c.payload[i]
  {
    hide Inv, Init, Enabled, Done, IsRun;
    InitInv(c, s);
    RunKeeps(c, s, moves, s');
    if !Done(c, s') {
      var m := Progress(c, s');
    }
    DoneIsComplete(c, s');
  }

  lemma DoneIsComplete<T>(c: Setting<T>, s': Net<T>)
    requires Inv(c, s') && Done(c, s')
    ensures s'.chan == map[]
    ensures forall j :: 0 <= j < |s'.got| ==>
              s'.got[j] == map i | 0 <= i < |s'.got| && i != j :: c.payload[i]
  {
    forall a, b | Pair(|s'.pc|, a, b)
      ensures Received(c, s', a, b) && Sent(c, s', a, b)
    {
      Positions(|s'.pc|, b, 0, a);
      Positions(|s'.pc|, a, 0, b);
    }
    forall j, i | 0 <= j < |s'.got|
      ensures i in s'.got[j] <==> 0 <= i < |s'.got| && i != j
    {
      if i in s'.got[j] {
        assert Pair(|s'.pc|, i, j);
      }
      if 0 <= i < |s'.got| && i != j {
        assert Pair(|s'.pc|, i, j);
        assert Received(c, s', i, j);
      }
    }
  }
}
