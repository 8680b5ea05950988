/** A whole map-reduce job without Combine (lib/mapreduce/map_reduce_lib.c): what the map nodes
    send, what the reduce nodes receive, and what is handed to Reduce. */
module MapReduceRun {

  import opened Sequences
  import opened Orders
  import opened BufferedIO
  import opened Wire
  import opened Baskets
  import opened Seats
  import KWayMerge

  // ---- what a chunk sends to each reducer

  /** A chunk of sorted items that can be distributed over the dividers and sent. */
  ghost predicate Chunk(f: Format, items: seq<Item>, d: seq<int>, rank: Item -> int) {
    Fit(items, d, rank) && Sorted(items, rank) && Sendable(f, Packet(false, items))
  }

  function Cut(items: seq<Item>, d: seq<int>, rank: Item -> int): (bs: seq<Basket>)
    requires Fit(items, d, rank)
    ensures |bs| == |d| && Inside(bs, |items|) && Contents(items, bs) == multiset(items)
  {
    DistributeConserves(items, d, rank);
    Padded(Fill(items, d, rank, 0, 0), |d|)
  }

  /** The items of a chunk that go to reducer r. */
  function Share(items: seq<Item>, d: seq<int>, rank: Item -> int, r: nat): seq<Item>
    requires Fit(items, d, rank) && r < |d|
  {
    Slice(items, Cut(items, d, rank)[r])
  }

  lemma {:induction false} PayloadPrefix(f: Format, items: seq<Item>, k: nat)
    requires k <= |items|
    ensures Payload(f, items[..k]) <= Payload(f, items)
  {
    var n := |items| - 1;
    if k < |items| {
      PayloadPrefix(f, items[..n], k);
      assert items[..n][..k] == items[..k];
    } else {
      assert items[..k] == items;
    }
  }

  lemma {:induction false} PayloadSuffix(f: Format, items: seq<Item>, k: nat)
    requires k <= |items|
    ensures Payload(f, items[k..]) <= Payload(f, items)
  {
    var n := |items| - 1;
    if k < |items| {
      PayloadSuffix(f, items[..n], k);
      assert items[..n][k..] == items[k..][..n - k];
      assert items[k..][n - k] == items[n];
    }
  }

  lemma Scale(a: nat, b: nat, h: nat)
    requires a <= b
    ensures a * h <= b * h
  {
  }

  /** A part of a chunk is no harder to send than the chunk. */
  lemma ShareSendable(f: Format, items: seq<Item>, d: seq<int>, rank: Item -> int, r: nat, last: bool)
    requires Chunk(f, items, d, rank) && r < |d|
    ensures Sendable(f, Packet(last, Share(items, d, rank, r))) && Sorted(Share(items, d, rank, r), rank)
  {
    hide Fits, Payload, Fit, Cut;
    var b := Cut(items, d, rank)[r];
    var share := Share(items, d, rank, r);
    assert share == items[..b.start + b.count][b.start..];
    PayloadPrefix(f, items, b.start + b.count);
    PayloadSuffix(f, items[..b.start + b.count], b.start);
    Scale(|share|, |items|, f.hashSize);
    assert AllFit(f, share);
  }

  /** MapSendToAllReducers: all packets pass through one write buffer, and each reducer gets
      exactly its own. */
  method MapSendToAllReducers(bio: BufferedWriter, handles: seq<int>, f: Format, last: bool,
                              items: seq<Item>, d: seq<int>, rank: Item -> int)
    requires bio.Valid() && bio.cursor == 0 && Chunk(f, items, d, rank) && |handles| == |d| && Unique(handles)
    modifies bio, bio.buf
    ensures bio.Valid() && bio.cursor == 0
    ensures forall r :: 0 <= r < |d| ==> Sendable(f, Packet(last, Share(items, d, rank, r)))
    ensures forall r :: 0 <= r < |d| ==>
              Given(bio.sinks, handles[r]) ==
                  Given(old(bio.sinks), handles[r]) + Encode(f, Packet(last, Share(items, d, rank, r)))
    ensures forall h :: h !in handles ==> Given(bio.sinks, h) == Given(old(bio.sinks), h)
  {
    hide Given, Encode, Sendable, Fit, Sorted;
    forall r | 0 <= r < |d|
      ensures Sendable(f, Packet(last, Share(items, d, rank, r)))
    {
      ShareSendable(f, items, d, rank, r, last);
    }
    var baskets := Distribute(items, d, rank);
    assert baskets == Cut(items, d, rank);
    for i := 0 to |handles|
      invariant bio.Valid() && bio.cursor == 0
      invariant forall r :: 0 <= r < i ==>
                  Given(bio.sinks, handles[r]) ==
                      Given(old(bio.sinks), handles[r]) + Encode(f, Packet(last, Share(items, d, rank, r)))
      invariant forall h :: h !in handles[..i] ==> Given(bio.sinks, h) == Given(old(bio.sinks), h)
    {
      assert handles[i] !in handles[..i];
      assert Slice(items, baskets[i]) == Share(items, d, rank, i);
      WriteDataToReduce(bio, handles[i], f, Packet(last, Slice(items, baskets[i])));
    }
    assert handles[..|handles|] == handles;
  }

  // ---- what a mapper sends over its whole life

  ghost predicate Chunks(f: Format, chunks: seq<seq<Item>>, d: seq<int>, rank: Item -> int) {
    forall c :: 0 <= c < |chunks| ==> Chunk(f, chunks[c], d, rank)
  }

  /** The first n packets for reducer r: one per chunk, the last chunk's flagged. */
  function Outbox(f: Format, chunks: seq<seq<Item>>, d: seq<int>, rank: Item -> int, r: nat, n: nat): (ps: seq<Packet>)
    requires Chunks(f, chunks, d, rank) && r < |d| && n <= |chunks|
    ensures |ps| == n
    ensures forall c :: 0 <= c < n ==> ps[c] == Packet(c == |chunks| - 1, Share(chunks[c], d, rank, r))
  {
    if n == 0 then [] else
      Outbox(f, chunks, d, rank, r, n - 1) + [Packet(n == |chunks|, Share(chunks[n - 1], d, rank, r))]
  }

  lemma OutboxSendable(f: Format, chunks: seq<seq<Item>>, d: seq<int>, rank: Item -> int, r: nat, n: nat)
    requires Chunks(f, chunks, d, rank) && r < |d| && n <= |chunks|
    ensures AllSendable(f, Outbox(f, chunks, d, rank, r, n))
    ensures forall c :: 0 <= c < n ==> Sorted(Outbox(f, chunks, d, rank, r, n)[c].items, rank)
  {
    hide Chunk, Sendable, Share, Sorted;
    forall c | 0 <= c < n
      ensures Sendable(f, Outbox(f, chunks, d, rank, r, n)[c])
              && Sorted(Outbox(f, chunks, d, rank, r, n)[c].items, rank)
    {
      ShareSendable(f, chunks[c], d, rank, r, c == |chunks| - 1);
    }
  }

  ghost function OutboxBytes(f: Format, chunks: seq<seq<Item>>, d: seq<int>, rank: Item -> int, r: nat,
                             n: nat): seq<Byte>
    requires Chunks(f, chunks, d, rank) && r < |d| && n <= |chunks|
  {
    OutboxSendable(f, chunks, d, rank, r, n);
    EncodeAll(f, Outbox(f, chunks, d, rank, r, n))
  }

  lemma OutboxStep(f: Format, chunks: seq<seq<Item>>, d: seq<int>, rank: Item -> int, r: nat, n: nat)
    requires Chunks(f, chunks, d, rank) && r < |d| && n < |chunks|
    requires Sendable(f, Packet(n == |chunks| - 1, Share(chunks[n], d, rank, r)))
    ensures OutboxBytes(f, chunks, d, rank, r, n + 1) ==
            OutboxBytes(f, chunks, d, rank, r, n) + Encode(f, Packet(n == |chunks| - 1, Share(chunks[n], d, rank, r)))
  {
    hide Fit, Sorted, Sendable, Share, Encode, EncodeAll;
    OutboxSendable(f, chunks, d, rank, r, n);
    EncodeSnoc(f, Outbox(f, chunks, d, rank, r, n), Packet(n == |chunks| - 1, Share(chunks[n], d, rank, r)));
  }

  /** The sending side of the map node's loop over its input. */
  method MapNodeMain(bio: BufferedWriter, handles: seq<int>, f: Format, chunks: seq<seq<Item>>, d: seq<int>,
                     rank: Item -> int)
    requires bio.Valid() && bio.cursor == 0 && bio.sinks == map[]
    requires Chunks(f, chunks, d, rank) && |handles| == |d| && Unique(handles)
    modifies bio, bio.buf
    ensures forall r :: 0 <= r < |d| ==> Given(bio.sinks, handles[r]) == OutboxBytes(f, chunks, d, rank, r, |chunks|)
  {
    hide Chunk, Sendable, Share, Encode, OutboxBytes, Given, Unique;
    Silent(f, chunks, d, rank);
    for c := 0 to |chunks|
      invariant bio.Valid() && bio.cursor == 0
      invariant forall r :: 0 <= r < |d| ==> Given(bio.sinks, handles[r]) == OutboxBytes(f, chunks, d, rank, r, c)
    {
      MapSendToAllReducers(bio, handles, f, c == |chunks| - 1, chunks[c], d, rank);
      forall r | 0 <= r < |d|
        ensures Given(bio.sinks, handles[r]) == OutboxBytes(f, chunks, d, rank, r, c + 1)
      {
        OutboxStep(f, chunks, d, rank, r, c);
      }
    }
  }

  lemma Silent(f: Format, chunks: seq<seq<Item>>, d: seq<int>, rank: Item -> int)
    requires Chunks(f, chunks, d, rank)
    ensures forall h :: Given(map[], h) == []
    ensures forall r :: 0 <= r < |d| ==> OutboxBytes(f, chunks, d, rank, r, 0) == []
  {
  }

  // ---- the reducer

  /** The flag stands on the last packet and on no other. */
  ghost predicate Flagged(ps: seq<Packet>) {
    forall i :: 0 <= i < |ps| ==> (ps[i].last <==> i == |ps| - 1)
  }

  ghost predicate PacketsSorted(ps: seq<Packet>, rank: Item -> int) {
    forall i :: 0 <= i < |ps| ==> Sorted(ps[i].items, rank)
  }

  /** What one channel holds: packets still to come, then whatever follows them. */
  ghost predicate Carries(f: Format, channel: seq<Byte>, ps: seq<Packet>, rest: seq<Byte>) {
    AllSendable(f, ps) && Flagged(ps) && channel == EncodeAll(f, ps) + rest
  }

  /** All items in a list of packets. */
  ghost function Poured(ps: seq<Packet>): multiset<Item> {
    if ps == [] then multiset{} else multiset(ps[0].items) + Poured(ps[1..])
  }

  ghost function Pending(todo: seq<seq<Packet>>): multiset<Item> {
    if todo == [] then multiset{} else
      var n := |todo| - 1;
      Pending(todo[..n]) + Poured(todo[n])
  }

  ghost function Outstanding(todo: seq<seq<Packet>>): nat {
    if todo == [] then 0 else
      var n := |todo| - 1;
      Outstanding(todo[..n]) + |todo[n]|
  }

  lemma {:induction false} TakeOne(todo: seq<seq<Packet>>, i: nat)
    requires i < |todo| && todo[i] != []
    ensures var after := todo[i := todo[i][1..]];
            && Pending(todo) == Pending(after) + multiset(todo[i][0].items)
            && Outstanding(after) == Outstanding(todo) - 1
  {
    var n := |todo| - 1;
    var after := todo[i := todo[i][1..]];
    if i < n {
      TakeOne(todo[..n], i);
      assert after[..n] == todo[..n][i := todo[i][1..]];
    } else {
      assert after[..n] == todo[..n];
    }
  }

  lemma {:induction false} NothingPending(todo: seq<seq<Packet>>)
    requires forall i :: 0 <= i < |todo| ==> todo[i] == []
    ensures Pending(todo) == multiset{}
  {
    if todo != [] {
      NothingPending(todo[..|todo| - 1]);
    }
  }

  /** Where the reducer stands: what is left on each channel, whom it still expects data from,
      and what it has collected. */
  datatype Inbox = Inbox(channels: seq<seq<Byte>>, excluded: seq<bool>, buffers: seq<seq<Item>>)

  ghost predicate Consistent(f: Format, rank: Item -> int, x: Inbox, todo: seq<seq<Packet>>, rest: seq<seq<Byte>>) {
    && |x.channels| == |x.excluded| == |todo| == |rest|
    && (forall i :: 0 <= i < |todo| ==> Carries(f, x.channels[i], todo[i], rest[i]))
    && (forall i :: 0 <= i < |todo| ==> PacketsSorted(todo[i], rank))
    && (forall i :: 0 <= i < |todo| ==> (x.excluded[i] <==> todo[i] == []))
    && KWayMerge.AllSorted(x.buffers, rank)
  }

  /** What is collected and what is still to come always make up the same. */
  ghost function Account(x: Inbox, todo: seq<seq<Packet>>): multiset<Item> {
    KWayMerge.Union(x.buffers) + Pending(todo)
  }

  lemma UnionSnoc(bs: seq<seq<Item>>, b: seq<Item>)
    ensures KWayMerge.Union(bs + [b]) == KWayMerge.Union(bs) + multiset(b)
  {
    assert (bs + [b])[..|bs|] == bs;
  }

  lemma CarriesTail(f: Format, channel: seq<Byte>, ps: seq<Packet>, rest: seq<Byte>)
    requires Carries(f, channel, ps, rest) && ps != []
    ensures Sendable(f, ps[0]) && AllSendable(f, ps[1..])
            && channel == Encode(f, ps[0]) + (EncodeAll(f, ps[1..]) + rest)
    ensures Carries(f, EncodeAll(f, ps[1..]) + rest, ps[1..], rest)
    ensures ps[0].last <==> ps[1..] == []
  {
    hide Encode, Sendable;
    assert forall i :: 0 <= i < |ps| - 1 ==> ps[1..][i] == ps[i + 1];
  }

  /** Receive one packet from map node i. */
  method ReceiveFrom(f: Format, ghost rank: Item -> int, x: Inbox, i: nat, ghost todo: seq<seq<Packet>>,
                     ghost rest: seq<seq<Byte>>)
      returns (y: Inbox, ghost todo': seq<seq<Packet>>)
    requires Consistent(f, rank, x, todo, rest) && i < |todo| && !x.excluded[i]
    ensures Consistent(f, rank, y, todo', rest) && Account(y, todo') == Account(x, todo)
    ensures Outstanding(todo') < Outstanding(todo)
    ensures y.excluded == x.excluded[i := y.excluded[i]]
  {
    hide Carries, Encode, EncodeAll, Sendable, Sorted, KWayMerge.Union, Pending, Outstanding;
    CarriesTail(f, x.channels[i], todo[i], rest[i]);
    var last, items, left :=
      RecvDataFromSingleMap(f, x.channels[i], todo[i][0], EncodeAll(f, todo[i][1..]) + rest[i]);
    TakeOne(todo, i);
    UnionSnoc(x.buffers, items);
    todo' := todo[i := todo[i][1..]];
    y := Inbox(x.channels[i := left], x.excluded[i := last], x.buffers + [items]);
  }

  /** One round over the map nodes that are still expected to send. */
  method ReceiveRound(f: Format, ghost rank: Item -> int, x: Inbox, ghost todo: seq<seq<Packet>>,
                      ghost rest: seq<seq<Byte>>)
      returns (y: Inbox, leave: bool, ghost todo': seq<seq<Packet>>)
    requires Consistent(f, rank, x, todo, rest)
    ensures Consistent(f, rank, y, todo', rest) && Account(y, todo') == Account(x, todo)
    ensures !leave <==> forall i :: 0 <= i < |y.excluded| ==> y.excluded[i]
    ensures leave ==> Outstanding(todo') < Outstanding(todo)
    ensures Outstanding(todo') <= Outstanding(todo)
  {
    hide Account, Outstanding, Carries, PacketsSorted, KWayMerge.AllSorted;
    y, leave, todo' := x, false, todo;
    for i := 0 to |x.channels|
      invariant |x.channels| == |todo'| == |y.excluded| && Consistent(f, rank, y, todo', rest)
      invariant Account(y, todo') == Account(x, todo)
      invariant !leave <==> forall j :: 0 <= j < i ==> y.excluded[j]
      invariant leave ==> Outstanding(todo') < Outstanding(todo)
      invariant Outstanding(todo') <= Outstanding(todo)
    {
      if !y.excluded[i] {
        y, todo' := ReceiveFrom(f, rank, y, i, todo', rest);
        if !y.excluded[i] {
          leave := true;
        }
      }
    }
  }

  /** ReduceNodeMain: it stops exactly when every map node has sent its flagged packet, having
      taken from each channel that packet and all before it and nothing behind it, and hands to
      Reduce exactly the received items, sorted. */
  method ReduceNodeMain(f: Format, rank: Item -> int, channels: seq<seq<Byte>>,
                        ghost sent: seq<seq<Packet>>, ghost rest: seq<seq<Byte>>)
      returns (all: seq<Item>, left: seq<seq<Byte>>)
    requires |channels| == |sent| == |rest|
    requires forall i :: 0 <= i < |sent| ==>
               sent[i] != [] && Carries(f, channels[i], sent[i], rest[i]) && PacketsSorted(sent[i], rank)
    ensures left == rest
    ensures multiset(all) == Pending(sent) && Sorted(all, rank)
  {
    hide Account, Outstanding, Carries, PacketsSorted, Sorted, Pending, KWayMerge.Union;
    var x := Inbox(channels, seq(|channels|, i => false), []);
    ghost var todo := sent;
    ghost var start := Account(x, todo);
    Opened(x, sent);
    var leave := true;
    while leave
      invariant Consistent(f, rank, x, todo, rest) && Account(x, todo) == start
      invariant !leave ==> forall i :: 0 <= i < |x.excluded| ==> x.excluded[i]
      decreases Outstanding(todo), leave
    {
      x, leave, todo := ReceiveRound(f, rank, x, todo, rest);
    }
    Finished(f, x, todo, rest);
    UnionSnoc(x.buffers, []);
    NoItems(rank);
    all := KWayMerge.Merge(x.buffers + [[]], rank);
    left := x.channels;
  }

  lemma NoItems(rank: Item -> int)
    ensures Sorted<Item>([], rank)
  {
  }

  lemma Opened(x: Inbox, sent: seq<seq<Packet>>)
    requires x.buffers == []
    ensures Account(x, sent) == Pending(sent)
  {
  }

  lemma Finished(f: Format, x: Inbox, todo: seq<seq<Packet>>, rest: seq<seq<Byte>>)
    requires |x.channels| == |todo| == |rest|
    requires forall i :: 0 <= i < |todo| ==> Carries(f, x.channels[i], todo[i], rest[i]) && todo[i] == []
    ensures x.channels == rest && Account(x, todo) == KWayMerge.Union(x.buffers)
  {
    NothingPending(todo);
    forall i | 0 <= i < |todo|
      ensures x.channels[i] == rest[i]
    {
      assert Carries(f, x.channels[i], todo[i], rest[i]);
      assert EncodeAll(f, []) + rest[i] == rest[i];
    }
  }

  // ---- conservation over the whole job

  ghost predicate AllDivisible(chunks: seq<seq<Item>>, d: seq<int>, rank: Item -> int) {
    forall c :: 0 <= c < |chunks| ==> Fit(chunks[c], d, rank)
  }

  /** What reducer r is sent of a list of chunks. */
  ghost function Handed(chunks: seq<seq<Item>>, d: seq<int>, rank: Item -> int, r: nat): multiset<Item>
    requires r < |d| && AllDivisible(chunks, d, rank)
  {
    if chunks == [] then multiset{} else
      var n := |chunks| - 1;
      Handed(chunks[..n], d, rank, r) + multiset(Share(chunks[n], d, rank, r))
  }

  /** What the first k reducers are sent of them. */
  ghost function Spread(chunks: seq<seq<Item>>, d: seq<int>, rank: Item -> int, k: nat): multiset<Item>
    requires k <= |d| && AllDivisible(chunks, d, rank)
  {
    if k == 0 then multiset{} else Spread(chunks, d, rank, k - 1) + Handed(chunks, d, rank, k - 1)
  }

  lemma {:induction false} SpreadStep(chunks: seq<seq<Item>>, d: seq<int>, rank: Item -> int, k: nat)
    requires k <= |d| && AllDivisible(chunks, d, rank) && chunks != []
    ensures var n := |chunks| - 1;
            && Inside(Cut(chunks[n], d, rank)[..k], |chunks[n]|)
            && Spread(chunks, d, rank, k) ==
                Spread(chunks[..n], d, rank, k) + Contents(chunks[n], Cut(chunks[n], d, rank)[..k])
  {
    hide Fit, Cut, Share, Contents, Inside, Handed;
    var n := |chunks| - 1;
    if k > 0 {
      SpreadStep(chunks, d, rank, k - 1);
      CutNext(chunks[n], d, rank, k - 1);
      HandedStep(chunks, d, rank, k - 1);
      var bs := Cut(chunks[n], d, rank);
      Exchange(Spread(chunks[..n], d, rank, k - 1), Contents(chunks[n], bs[..k - 1]),
               Handed(chunks[..n], d, rank, k - 1), multiset(Share(chunks[n], d, rank, k - 1)));
    } else {
      CutNone(chunks[n], d, rank);
    }
  }

  lemma HandedStep(chunks: seq<seq<Item>>, d: seq<int>, rank: Item -> int, r: nat)
    requires r < |d| && AllDivisible(chunks, d, rank) && chunks != []
    ensures var n := |chunks| - 1;
            Handed(chunks, d, rank, r) == Handed(chunks[..n], d, rank, r) + multiset(Share(chunks[n], d, rank, r))
  {
    hide Fit, Share;
  }

  lemma Exchange(a: multiset<Item>, b: multiset<Item>, c: multiset<Item>, d: multiset<Item>)
    ensures (a + b) + (c + d) == (a + c) + (b + d)
  {
  }

  lemma CutNext(items: seq<Item>, d: seq<int>, rank: Item -> int, k: nat)
    requires Fit(items, d, rank) && k < |d|
    ensures var bs := Cut(items, d, rank);
            && Inside(bs[..k], |items|) && Inside(bs[..k + 1], |items|)
            && Contents(items, bs[..k + 1]) == Contents(items, bs[..k]) + multiset(Share(items, d, rank, k))
  {
    hide Fit, Cut, Contents, Slice;
    var bs := Cut(items, d, rank);
    assert bs[..k + 1] == bs[..k] + [bs[k]];
    ContentsSnoc(items, bs[..k], bs[k]);
  }

  lemma CutNone(items: seq<Item>, d: seq<int>, rank: Item -> int)
    requires Fit(items, d, rank)
    ensures Inside(Cut(items, d, rank)[..0], |items|) && Contents(items, Cut(items, d, rank)[..0]) == multiset{}
  {
  }

  /** All reducers together are sent exactly what the chunks hold. */
  lemma {:induction false} SpreadConserves(chunks: seq<seq<Item>>, d: seq<int>, rank: Item -> int)
    requires AllDivisible(chunks, d, rank)
    ensures Spread(chunks, d, rank, |d|) == KWayMerge.Union(chunks)
  {
    if chunks == [] {
      SpreadNothing(d, rank, |d|);
    } else {
      var n := |chunks| - 1;
      SpreadStep(chunks, d, rank, |d|);
      SpreadConserves(chunks[..n], d, rank);
      assert Cut(chunks[n], d, rank)[..|d|] == Cut(chunks[n], d, rank);
    }
  }

  lemma {:induction false} SpreadNothing(d: seq<int>, rank: Item -> int, k: nat)
    requires k <= |d|
    ensures Spread([], d, rank, k) == multiset{}
  {
    if k > 0 {
      SpreadNothing(d, rank, k - 1);
    }
  }

  /** The chunks of all map nodes in one list. */
  ghost function AllChunks(mappers: seq<seq<seq<Item>>>): seq<seq<Item>> {
    if mappers == [] then [] else AllChunks(mappers[..|mappers| - 1]) + mappers[|mappers| - 1]
  }

  lemma HandedSnoc(a: seq<seq<Item>>, c: seq<Item>, d: seq<int>, rank: Item -> int, r: nat)
    requires r < |d| && AllDivisible(a, d, rank) && Fit(c, d, rank)
    ensures AllDivisible(a + [c], d, rank)
            && Handed(a + [c], d, rank, r) == Handed(a, d, rank, r) + multiset(Share(c, d, rank, r))
  {
    hide Fit, Share;
    assert (a + [c])[..|a|] == a;
  }

  lemma {:induction false} HandedConcat(a: seq<seq<Item>>, b: seq<seq<Item>>, d: seq<int>, rank: Item -> int, r: nat)
    requires r < |d| && AllDivisible(a, d, rank) && AllDivisible(b, d, rank)
    ensures AllDivisible(a + b, d, rank) && Handed(a + b, d, rank, r) == Handed(a, d, rank, r) + Handed(b, d, rank, r)
  {
    hide Fit, Share, Handed;
    if b == [] {
      assert a + b == a;
      NothingHanded(d, rank, r);
    } else {
      var n := |b| - 1;
      HandedConcat(a, b[..n], d, rank, r);
      HandedSnoc(a + b[..n], b[n], d, rank, r);
      HandedSnoc(b[..n], b[n], d, rank, r);
      assert b == b[..n] + [b[n]] && a + b == a + b[..n] + [b[n]];
    }
  }

  lemma {:induction false} PouredSnoc(ps: seq<Packet>, p: Packet)
    ensures Poured(ps + [p]) == Poured(ps) + multiset(p.items)
  {
    if ps == [] {
      assert ps + [p] == [p];
      assert Poured([p]) == multiset(p.items) + Poured([]);
    } else {
      PouredSnoc(ps[1..], p);
      assert (ps + [p])[1..] == ps[1..] + [p];
    }
  }

  lemma NothingPoured()
    ensures Poured([]) == multiset{}
  {
  }

  lemma {:induction false} OutboxHolds(f: Format, chunks: seq<seq<Item>>, d: seq<int>, rank: Item -> int, r: nat,
                                       n: nat)
    requires Chunks(f, chunks, d, rank) && r < |d| && n <= |chunks|
    ensures AllDivisible(chunks[..n], d, rank)
    ensures Poured(Outbox(f, chunks, d, rank, r, n)) == Handed(chunks[..n], d, rank, r)
  {
    hide Fit, Share, Sorted, Sendable, Handed, Poured;
    if n > 0 {
      OutboxHolds(f, chunks, d, rank, r, n - 1);
      PouredSnoc(Outbox(f, chunks, d, rank, r, n - 1), Packet(n == |chunks|, Share(chunks[n - 1], d, rank, r)));
      HandedSnoc(chunks[..n - 1], chunks[n - 1], d, rank, r);
      assert chunks[..n] == chunks[..n - 1] + [chunks[n - 1]];
    } else {
      NothingHanded(d, rank, r);
      NothingPoured();
    }
  }

  /** A job: map nodes with at least one chunk each. */
  ghost predicate Job(f: Format, mappers: seq<seq<seq<Item>>>, d: seq<int>, rank: Item -> int) {
    forall m :: 0 <= m < |mappers| ==> mappers[m] != [] && Chunks(f, mappers[m], d, rank)
  }

  /** The packets that the map nodes address to reducer r. */
  ghost function Addressed(f: Format, mappers: seq<seq<seq<Item>>>, d: seq<int>, rank: Item -> int,
                           r: nat): (sent: seq<seq<Packet>>)
    requires Job(f, mappers, d, rank) && r < |d|
    ensures |sent| == |mappers|
    ensures forall m :: 0 <= m < |mappers| ==> sent[m] == Outbox(f, mappers[m], d, rank, r, |mappers[m]|)
  {
    seq(|mappers|, m requires 0 <= m < |mappers| => Outbox(f, mappers[m], d, rank, r, |mappers[m]|))
  }

  lemma {:induction false} AddressedHolds(f: Format, mappers: seq<seq<seq<Item>>>, d: seq<int>, rank: Item -> int,
                                          r: nat)
    requires Job(f, mappers, d, rank) && r < |d|
    ensures AllDivisible(AllChunks(mappers), d, rank)
    ensures Pending(Addressed(f, mappers, d, rank, r)) == Handed(AllChunks(mappers), d, rank, r)
  {
    hide Fit, Sorted, Sendable, Handed, Outbox, Poured;
    if mappers == [] {
      NothingHanded(d, rank, r);
    } else {
      var n := |mappers| - 1;
      AddressedHolds(f, mappers[..n], d, rank, r);
      OutboxHolds(f, mappers[n], d, rank, r, |mappers[n]|);
      assert mappers[n][..|mappers[n]|] == mappers[n];
      HandedConcat(AllChunks(mappers[..n]), mappers[n], d, rank, r);
      assert Addressed(f, mappers, d, rank, r)[..n] == Addressed(f, mappers[..n], d, rank, r);
    }
  }

  lemma NothingHanded(d: seq<int>, rank: Item -> int, r: nat)
    requires r < |d|
    ensures AllDivisible([], d, rank) && Handed([], d, rank, r) == multiset{}
  {
  }

  /** What mapper m wrote for reducer r is what the reducer's loop expects. */
  lemma Delivered(f: Format, chunks: seq<seq<Item>>, d: seq<int>, rank: Item -> int, r: nat)
    requires Chunks(f, chunks, d, rank) && chunks != [] && r < |d|
    ensures var ps := Outbox(f, chunks, d, rank, r, |chunks|);
            && ps != [] && PacketsSorted(ps, rank)
            && Carries(f, OutboxBytes(f, chunks, d, rank, r, |chunks|), ps, [])
  {
    hide Chunk, Sendable, Encode;
    OutboxSendable(f, chunks, d, rank, r, |chunks|);
    var bytes := OutboxBytes(f, chunks, d, rank, r, |chunks|);
    assert bytes + [] == bytes;
  }

  /** One reduce node's part of the job. */
  method ReducerPart(f: Format, ghost mappers: seq<seq<seq<Item>>>, ghost d: seq<int>, rank: Item -> int,
                     wires: seq<map<int, seq<Byte>>>, handle: int, ghost r: nat) returns (all: seq<Item>)
    requires Job(f, mappers, d, rank) && r < |d| && |wires| == |mappers|
    requires forall m :: 0 <= m < |mappers| ==>
               Given(wires[m], handle) == OutboxBytes(f, mappers[m], d, rank, r, |mappers[m]|)
    ensures Sorted(all, rank)
    ensures AllDivisible(AllChunks(mappers), d, rank) && multiset(all) == Handed(AllChunks(mappers), d, rank, r)
  {
    hide Chunks, Carries, PacketsSorted, Given, OutboxBytes, Sorted, Handed, Pending, AllDivisible;
    var channels := seq(|wires|, m requires 0 <= m < |wires| => Given(wires[m], handle));
    ghost var sent := Addressed(f, mappers, d, rank, r);
    ghost var rest := seq(|wires|, m => []);
    forall m | 0 <= m < |mappers|
      ensures sent[m] != [] && Carries(f, channels[m], sent[m], rest[m]) && PacketsSorted(sent[m], rank)
    {
      Delivered(f, mappers[m], d, rank, r);
    }
    var left;
    all, left := ReduceNodeMain(f, rank, channels, sent, rest);
    AddressedHolds(f, mappers, d, rank, r);
  }

  /** The whole job.  Over all reducers, Reduce is handed exactly what the map nodes produced,
      and each reducer's part is sorted. */
  method MapReduce(f: Format, mappers: seq<seq<seq<Item>>>, d: seq<int>, rank: Item -> int, handles: seq<int>,
                   bufferSize: nat)
      returns (outputs: seq<seq<Item>>)
    requires Job(f, mappers, d, rank) && |handles| == |d| && Unique(handles)
    ensures |outputs| == |d| && KWayMerge.AllSorted(outputs, rank)
    ensures KWayMerge.Union(outputs) == KWayMerge.Union(AllChunks(mappers))
    ensures AllDivisible(AllChunks(mappers), d, rank)
    ensures forall r :: 0 <= r < |d| ==> multiset(outputs[r]) == Handed(AllChunks(mappers), d, rank, r)
  {
    hide Chunks, Given, OutboxBytes, Unique, Sorted, Handed, AllChunks, Spread, AllDivisible, KWayMerge.Union;
    var wires: seq<map<int, seq<Byte>>> := [];
    for m := 0 to |mappers|
      invariant |wires| == m
      invariant forall m', r :: 0 <= m' < m && 0 <= r < |d| ==>
                  Given(wires[m'], handles[r]) == OutboxBytes(f, mappers[m'], d, rank, r, |mappers[m']|)
    {
      var bio := new BufferedWriter(bufferSize);
      MapNodeMain(bio, handles, f, mappers[m], d, rank);
      wires := wires + [bio.sinks];
    }
    outputs := [];
    AllJob(f, mappers, d, rank);
    NoneYet(mappers, d, rank);
    for r := 0 to |d|
      invariant |outputs| == r && KWayMerge.AllSorted(outputs, rank)
      invariant KWayMerge.Union(outputs) == Spread(AllChunks(mappers), d, rank, r)
      invariant forall r' :: 0 <= r' < r ==> multiset(outputs[r']) == Handed(AllChunks(mappers), d, rank, r')
    {
      var all := ReducerPart(f, mappers, d, rank, wires, handles[r], r);
      UnionSnoc(outputs, all);
      SpreadNext(AllChunks(mappers), d, rank, r);
      outputs := outputs + [all];
    }
    SpreadConserves(AllChunks(mappers), d, rank);
  }

  lemma SpreadNext(chunks: seq<seq<Item>>, d: seq<int>, rank: Item -> int, r: nat)
    requires r < |d| && AllDivisible(chunks, d, rank)
    ensures Spread(chunks, d, rank, r + 1) == Spread(chunks, d, rank, r) + Handed(chunks, d, rank, r)
  {
  }

  lemma NoneYet(mappers: seq<seq<seq<Item>>>, d: seq<int>, rank: Item -> int)
    requires AllDivisible(AllChunks(mappers), d, rank)
    ensures KWayMerge.Union<Item>([]) == Spread(AllChunks(mappers), d, rank, 0)
  {
  }

  lemma {:induction false} AllJob(f: Format, mappers: seq<seq<seq<Item>>>, d: seq<int>, rank: Item -> int)
    requires Job(f, mappers, d, rank)
    ensures AllDivisible(AllChunks(mappers), d, rank)
  {
    hide Fit, Sorted, Sendable;
    if mappers != [] {
      AllJob(f, mappers[..|mappers| - 1], d, rank);
    }
  }

  // ---- grouping: which reducer sees which hash

  /** Everything reducer r is handed belongs to the range that the dividers give it. */
  ghost predicate Grouped(outputs: seq<multiset<Item>>, d: seq<int>, rank: Item -> int)
    requires |outputs| == |d| && d != [] && Ascending(d)
  {
    forall r, x :: 0 <= r < |d| && x in outputs[r] ==> BelongsTo(d, rank(x), r)
  }

  ghost predicate BelongsTo(d: seq<int>, h: int, r: nat)
    requires d != []
  {
    h <= d[|d| - 1] && Home(d, h) == r
  }

  ghost predicate ChunkGrouped(items: seq<Item>, d: seq<int>, rank: Item -> int)
    requires Fit(items, d, rank)
  {
    forall r, x :: 0 <= r < |d| && x in Share(items, d, rank, r) ==> BelongsTo(d, rank(x), r)
  }

  lemma ShareAt(items: seq<Item>, d: seq<int>, rank: Item -> int, r: nat)
    requires Fit(items, d, rank) && r < |d|
    ensures var bs := Fill(items, d, rank, 0, 0);
            && |bs| <= |d|
            && (r < |bs| ==> bs[r].start + bs[r].count <= |items| && Share(items, d, rank, r) == Slice(items, bs[r]))
            && (r >= |bs| ==> Share(items, d, rank, r) == [])
  {
    hide Fill, Contents;
    DistributeConserves(items, d, rank);
    var bs := Fill(items, d, rank, 0, 0);
    var cut := Cut(items, d, rank);
    assert cut == Padded(bs, |d|);
    assert cut[r].start + cut[r].count <= |items|;
    assert r < |bs| ==> cut[r] == bs[r];
    assert r >= |bs| ==> cut[r] == Basket(0, 0);
  }

  lemma InShare(items: seq<Item>, d: seq<int>, rank: Item -> int, r: nat, x: Item)
    requires Fit(items, d, rank) && r < |d|
    ensures var bs := Fill(items, d, rank, 0, 0);
            x in Share(items, d, rank, r) <==>
            r < |bs| && exists j :: bs[r].start <= j < bs[r].start + bs[r].count && j < |items| && items[j] == x
  {
    hide Fill, Share, Fit;
    ShareAt(items, d, rank, r);
    var bs := Fill(items, d, rank, 0, 0);
    if r < |bs| {
      var s := Slice(items, bs[r]);
      assert forall k :: 0 <= k < |s| ==> s[k] == items[bs[r].start + k];
      assert forall j :: bs[r].start <= j < bs[r].start + bs[r].count ==> items[j] == s[j - bs[r].start];
    }
  }

  lemma ChunkGroupedIff(items: seq<Item>, d: seq<int>, rank: Item -> int)
    requires Fit(items, d, rank) && Sorted(items, rank)
    ensures ChunkGrouped(items, d, rank) <==> NoGap(items, d, rank)
  {
    hide Fill, Share, NoGap, Sorted, Home;
    PlacedRightIffNoGap(items, d, rank);
    var bs := Fill(items, d, rank, 0, 0);
    FillShort(items, d, rank, 0, 0);
    if ChunkGrouped(items, d, rank) {
      forall i, j | 0 <= i < |bs| && bs[i].start <= j < bs[i].start + bs[i].count && j < |items|
        ensures Home(d, rank(items[j])) == i
      {
        InShare(items, d, rank, i, items[j]);
        assert BelongsTo(d, rank(items[j]), i);
      }
      assert AtHome(items, d, rank, bs, 0);
    }
    if AtHome(items, d, rank, bs, 0) {
      forall r, x | 0 <= r < |d| && x in Share(items, d, rank, r)
        ensures BelongsTo(d, rank(x), r)
      {
        InShare(items, d, rank, r, x);
      }
    }
  }

  lemma {:induction false} HandedIn(chunks: seq<seq<Item>>, d: seq<int>, rank: Item -> int, r: nat, x: Item)
    requires r < |d| && AllDivisible(chunks, d, rank)
    ensures x in Handed(chunks, d, rank, r) <==> exists c :: 0 <= c < |chunks| && x in Share(chunks[c], d, rank, r)
  {
    hide Fit, Share;
    if chunks != [] {
      var n := |chunks| - 1;
      HandedIn(chunks[..n], d, rank, r, x);
      if x in Share(chunks[n], d, rank, r) {
        assert x in multiset(Share(chunks[n], d, rank, r));
      }
      if c :| 0 <= c < |chunks[..n]| && x in Share(chunks[..n][c], d, rank, r) {
        assert x in Share(chunks[c], d, rank, r);
      }
      if c :| 0 <= c < |chunks| && x in Share(chunks[c], d, rank, r) {
        assert c < n ==> x in Share(chunks[..n][c], d, rank, r);
      }
    }
  }

  ghost predicate AllNoGap(chunks: seq<seq<Item>>, d: seq<int>, rank: Item -> int)
    requires AllDivisible(chunks, d, rank)
  {
    forall c :: 0 <= c < |chunks| ==> NoGap(chunks[c], d, rank)
  }

  /** Equal hashes meet at one reducer, the one whose range holds them, exactly when no chunk
      skips a reducer's range. */
  lemma GroupedIffNoGap(chunks: seq<seq<Item>>, d: seq<int>, rank: Item -> int, outputs: seq<multiset<Item>>)
    requires d != [] && Ascending(d) && AllDivisible(chunks, d, rank) && |outputs| == |d|
    requires forall c :: 0 <= c < |chunks| ==> Sorted(chunks[c], rank)
    requires forall r :: 0 <= r < |d| ==> outputs[r] == Handed(chunks, d, rank, r)
    ensures Grouped(outputs, d, rank) <==> AllNoGap(chunks, d, rank)
  {
    hide Fit, Share, NoGap, Sorted, Handed, BelongsTo, Ascending;
    if Grouped(outputs, d, rank) {
      forall c | 0 <= c < |chunks|
        ensures NoGap(chunks[c], d, rank)
      {
        ChunkGroupedIff(chunks[c], d, rank);
        forall r, x | 0 <= r < |d| && x in Share(chunks[c], d, rank, r)
          ensures BelongsTo(d, rank(x), r)
        {
          HandedIn(chunks, d, rank, r, x);
          assert x in outputs[r];
        }
      }
    }
    if AllNoGap(chunks, d, rank) {
      forall r, x | 0 <= r < |d| && x in outputs[r]
        ensures BelongsTo(d, rank(x), r)
      {
        HandedIn(chunks, d, rank, r, x);
        var c :| 0 <= c < |chunks| && x in Share(chunks[c], d, rank, r);
        ChunkGroupedIff(chunks[c], d, rank);
      }
    }
  }

  /** What reducer r is sent of a chunk: the items whose seat is r. */
  lemma ShareIsSeats(items: seq<Item>, d: seq<int>, rank: Item -> int, r: nat, x: Item)
    requires Fit(items, d, rank) && Sorted(items, rank) && r < |d|
    ensures x in Share(items, d, rank, r) <==>
            exists j :: 0 <= j < |items| && items[j] == x && Seat(items, d, rank, j) == r
  {
    hide Fill, Share, Fit, Sorted, Seat;
    InShare(items, d, rank, r, x);
    forall j | 0 <= j < |items|
      ensures var bs := Fill(items, d, rank, 0, 0);
              r < |bs| && bs[r].start <= j < bs[r].start + bs[r].count <==> Seat(items, d, rank, j) == r
    {
      InBasketIffSeat(items, d, rank, j, r);
    }
  }

  /** Items of equal hash are handed to the same reducer. */
  ghost predicate Meet(outputs: seq<multiset<Item>>, rank: Item -> int) {
    forall r, r', x, y :: 0 <= r < |outputs| && 0 <= r' < |outputs| && x in outputs[r] && y in outputs[r'] ==>
      rank(x) == rank(y) ==> r == r'
  }

  ghost predicate IsPlace(chunks: seq<seq<Item>>, c: int, j: int) {
    0 <= c < |chunks| && 0 <= j < |chunks[c]|
  }

  ghost function SeatAt(chunks: seq<seq<Item>>, d: seq<int>, rank: Item -> int, c: int, j: int): (r: nat)
    requires AllDivisible(chunks, d, rank) && IsPlace(chunks, c, j)
    ensures r < |d|
  {
    Seat(chunks[c], d, rank, j)
  }

  /** Equal hashes have equal seats, in whatever chunks they are. */
  ghost predicate SeatsAgree(chunks: seq<seq<Item>>, d: seq<int>, rank: Item -> int)
    requires AllDivisible(chunks, d, rank)
  {
    forall c, j, c', j' ::
      IsPlace(chunks, c, j) && IsPlace(chunks, c', j') && rank(chunks[c][j]) == rank(chunks[c'][j']) ==>
        SeatAt(chunks, d, rank, c, j) == SeatAt(chunks, d, rank, c', j')
  }

  /** Where an item handed to reducer r comes from. */
  lemma SeatOfHanded(chunks: seq<seq<Item>>, d: seq<int>, rank: Item -> int, r: nat, x: Item) returns (c: nat, j: nat)
    requires r < |d| && AllDivisible(chunks, d, rank) && forall c :: 0 <= c < |chunks| ==> Sorted(chunks[c], rank)
    requires x in Handed(chunks, d, rank, r)
    ensures IsPlace(chunks, c, j) && chunks[c][j] == x && SeatAt(chunks, d, rank, c, j) == r
  {
    hide Fit, Share, Sorted, Seat, Handed;
    HandedIn(chunks, d, rank, r, x);
    c :| 0 <= c < |chunks| && x in Share(chunks[c], d, rank, r);
    ShareIsSeats(chunks[c], d, rank, r, x);
    j :| 0 <= j < |chunks[c]| && chunks[c][j] == x && Seat(chunks[c], d, rank, j) == r;
  }

  lemma HandedAtSeat(chunks: seq<seq<Item>>, d: seq<int>, rank: Item -> int, c: nat, j: nat)
    requires AllDivisible(chunks, d, rank) && IsPlace(chunks, c, j) && Sorted(chunks[c], rank)
    ensures chunks[c][j] in Handed(chunks, d, rank, SeatAt(chunks, d, rank, c, j))
  {
    hide Fit, Share, Sorted, Seat, Handed;
    var r := SeatAt(chunks, d, rank, c, j);
    HandedIn(chunks, d, rank, r, chunks[c][j]);
    ShareIsSeats(chunks[c], d, rank, r, chunks[c][j]);
    assert chunks[c][j] in Share(chunks[c], d, rank, r);
  }

  /** Equal hashes meet at one reducer exactly when their seats agree over all chunks. */
  lemma MeetIffSeatsAgree(chunks: seq<seq<Item>>, d: seq<int>, rank: Item -> int, outputs: seq<multiset<Item>>)
    requires AllDivisible(chunks, d, rank) && |outputs| == |d|
    requires forall c :: 0 <= c < |chunks| ==> Sorted(chunks[c], rank)
    requires forall r :: 0 <= r < |d| ==> outputs[r] == Handed(chunks, d, rank, r)
    ensures Meet(outputs, rank) <==> SeatsAgree(chunks, d, rank)
  {
    hide Fit, Sorted, SeatAt, Handed, AllDivisible;
    if Meet(outputs, rank) {
      forall c, j, c', j' | IsPlace(chunks, c, j) && IsPlace(chunks, c', j')
        && rank(chunks[c][j]) == rank(chunks[c'][j'])
        ensures SeatAt(chunks, d, rank, c, j) == SeatAt(chunks, d, rank, c', j')
      {
        HandedAtSeat(chunks, d, rank, c, j);
        HandedAtSeat(chunks, d, rank, c', j');
        assert chunks[c][j] in outputs[SeatAt(chunks, d, rank, c, j)];
        assert chunks[c'][j'] in outputs[SeatAt(chunks, d, rank, c', j')];
      }
    }
    if SeatsAgree(chunks, d, rank) {
      forall r, r', x, y | 0 <= r < |outputs| && 0 <= r' < |outputs| && x in outputs[r] && y in outputs[r']
        && rank(x) == rank(y)
        ensures r == r'
      {
        var c, j := SeatOfHanded(chunks, d, rank, r, x);
        var c', j' := SeatOfHanded(chunks, d, rank, r', y);
      }
    }
  }
}
