/** The packets that map nodes send to reduce nodes (lib/mapreduce/map_reduce_lib.c): their
    layout, the writer and the reader. */
module Wire {

  import opened BufferedIO
  import opened Wrappers

  /** hashSize bytes per hash; an inline value is the pointer field itself, four bytes wide. */
  datatype Format = Format(hashSize: nat, inlineValue: bool)

  datatype Item = Item(key: seq<Byte>, value: seq<Byte>, hash: seq<Byte>)

  datatype Packet = Packet(last: bool, items: seq<Item>)

  const INT_LIMIT: nat := 0x8000_0000

  /** The reader insists on reading at least one byte at a time. */
  ghost predicate Fits(f: Format, it: Item) {
    && 0 < |it.key| < INT_LIMIT
    && |it.hash| == f.hashSize > 0
    && if f.inlineValue then |it.value| == 4 else 0 < |it.value| < INT_LIMIT
  }

  ghost predicate AllFit(f: Format, items: seq<Item>) {
    forall i :: 0 <= i < |items| ==> Fits(f, items[i])
  }

  /** Sizes are C ints. */
  ghost predicate Sendable(f: Format, p: Packet) {
    AllFit(f, p.items) && PacketSize(f, p.items) < INT_LIMIT && |p.items| < INT_LIMIT
  }

  // ---- layout

  function Int4(n: nat): (s: seq<Byte>)
    requires n < INT_LIMIT
    ensures |s| == 4 && FromInt4(s) == n
  {
    var n1 := n / 256;
    var n2 := n1 / 256;
    [n % 256, n1 % 256, n2 % 256, n2 / 256]
  }

  function FromInt4(s: seq<Byte>): nat
    requires |s| == 4
  {
    var (b0: int, b1: int, b2: int, b3: int) := (s[0], s[1], s[2], s[3]);
    b0 + 256 * (b1 + 256 * (b2 + 256 * b3))
  }

  function EncodeItem(f: Format, it: Item): seq<Byte>
    requires Fits(f, it)
  {
    Int4(|it.key|) + it.key + (if f.inlineValue then [] else Int4(|it.value|)) + it.value + it.hash
  }

  function EncodeItems(f: Format, items: seq<Item>): seq<Byte>
    requires AllFit(f, items)
  {
    if items == [] then [] else
      var n := |items| - 1;
      EncodeItems(f, items[..n]) + EncodeItem(f, items[n])
  }

  function Flag(last: bool): nat {
    if last then 1 else 0
  }

  function Body(f: Format, p: Packet): seq<Byte>
    requires Sendable(f, p)
  {
    Int4(Flag(p.last)) + Int4(|p.items|) + EncodeItems(f, p.items)
  }

  function Encode(f: Format, p: Packet): seq<Byte>
    requires Sendable(f, p)
  {
    Int4(PacketSize(f, p.items)) + Body(f, p)
  }

  function Payload(f: Format, items: seq<Item>): nat {
    if items == [] then 0 else
      var it := items[|items| - 1];
      Payload(f, items[..|items| - 1]) + |it.key| + if f.inlineValue then 0 else |it.value|
  }

  /** The size announced ahead of the packet. */
  function PacketSize(f: Format, items: seq<Item>): nat {
    8 + Payload(f, items) + |items| * 4 + |items| * f.hashSize + |items| * 4
  }

  method CalculateSendingDataSize(f: Format, items: seq<Item>) returns (size: nat)
    ensures size == PacketSize(f, items)
  {
    size := 8;
    for i := 0 to |items|
      invariant size == 8 + Payload(f, items[..i])
    {
      assert items[..i + 1][..i] == items[..i];
      size := size + |items[i].key|;
      if !f.inlineValue {
        size := size + |items[i].value|;
      }
    }
    assert items[..|items|] == items;
    size := size + |items| * 4;
    size := size + |items| * f.hashSize;
    size := size + |items| * 4;
  }

  /** A packet byte by byte: size, flag, count; then for each item key size, key, value size, value,
      hash. */
  lemma LayoutExample()
    ensures Encode(Format(1, false), Packet(true, [Item([7], [8, 9], [5])])) ==
              [20, 0, 0, 0, 1, 0, 0, 0, 1, 0, 0, 0, 1, 0, 0, 0, 7, 2, 0, 0, 0, 8, 9, 5]
  {
    hide Int4, EncodeItems, Payload;
    var f, it := Format(1, false), Item([7], [8, 9], [5]);
    OneItem(f, it);
    SmallInt(1);
    SmallInt(2);
    SmallInt(20);
    assert EncodeItem(f, it) == [1, 0, 0, 0, 7, 2, 0, 0, 0, 8, 9, 5];
    assert Body(f, Packet(true, [it])) == [1, 0, 0, 0] + [1, 0, 0, 0] + EncodeItem(f, it);
  }

  /** Inline values travel without their size. */
  lemma InlineLayoutExample()
    ensures Encode(Format(1, true), Packet(false, [Item([7], [1, 2, 3, 4], [5])])) ==
              [18, 0, 0, 0, 0, 0, 0, 0, 1, 0, 0, 0, 1, 0, 0, 0, 7, 1, 2, 3, 4, 5]
  {
    hide Int4, EncodeItems, Payload;
    var f, it := Format(1, true), Item([7], [1, 2, 3, 4], [5]);
    OneItem(f, it);
    SmallInt(0);
    SmallInt(1);
    SmallInt(18);
    assert EncodeItem(f, it) == [1, 0, 0, 0, 7, 1, 2, 3, 4, 5];
    assert Body(f, Packet(false, [it])) == [0, 0, 0, 0] + [1, 0, 0, 0] + EncodeItem(f, it);
  }

  lemma SmallInt(n: nat)
    requires n < 256
    ensures Int4(n) == [n, 0, 0, 0]
  {
  }

  lemma OneItem(f: Format, it: Item)
    requires Fits(f, it)
    ensures EncodeItems(f, [it]) == EncodeItem(f, it)
    ensures Payload(f, [it]) == |it.key| + if f.inlineValue then 0 else |it.value|
  {
    assert [it][..0] == [];
    assert EncodeItems(f, []) + EncodeItem(f, it) == EncodeItem(f, it);
  }

  lemma ItemLength(f: Format, it: Item)
    requires Fits(f, it)
    ensures |EncodeItem(f, it)| == |it.key| + (if f.inlineValue then 0 else |it.value|) + 8 + f.hashSize
  {
    hide Int4;
  }

  lemma {:induction false} ItemsLength(f: Format, items: seq<Item>)
    requires AllFit(f, items)
    ensures |EncodeItems(f, items)| == Payload(f, items) + |items| * (8 + f.hashSize)
  {
    hide EncodeItem, Fits;
    if items != [] {
      var n := |items| - 1;
      ItemsLength(f, items[..n]);
      ItemLength(f, items[n]);
      assert |items| * (8 + f.hashSize) == n * (8 + f.hashSize) + (8 + f.hashSize);
    }
  }

  /** The announced size is the number of bytes that follow it. */
  lemma SizeExact(f: Format, p: Packet)
    requires Sendable(f, p)
    ensures |Body(f, p)| == PacketSize(f, p.items)
  {
    hide Int4, EncodeItems, Payload, AllFit;
    ItemsLength(f, p.items);
    assert |p.items| * (8 + f.hashSize) == |p.items| * 4 + |p.items| * f.hashSize + |p.items| * 4;
  }

  // ---- decoding

  function TakeBytes(s: seq<Byte>, n: nat): Option<(seq<Byte>, seq<Byte>)> {
    if |s| < n then None else Some((s[..n], s[n..]))
  }

  function TakeInt(s: seq<Byte>): Option<(nat, seq<Byte>)> {
    var r :- TakeBytes(s, 4);
    Some((FromInt4(r.0), r.1))
  }

  function TakeItem(f: Format, s: seq<Byte>): Option<(Item, seq<Byte>)> {
    var keySize :- TakeInt(s);
    var key :- TakeBytes(keySize.1, keySize.0);
    var valueSize :- if f.inlineValue then Some((4, key.1)) else TakeInt(key.1);
    var value :- TakeBytes(valueSize.1, valueSize.0);
    var hash :- TakeBytes(value.1, f.hashSize);
    Some((Item(key.0, value.0, hash.0), hash.1))
  }

  function TakeItems(f: Format, n: nat, s: seq<Byte>): Option<(seq<Item>, seq<Byte>)> {
    if n == 0 then Some(([], s)) else
      var first :- TakeItem(f, s);
      var others :- TakeItems(f, n - 1, first.1);
      Some(([first.0] + others.0, others.1))
  }

  /** One packet off the front of a stream. */
  function Decode(f: Format, s: seq<Byte>): Option<(Packet, seq<Byte>)> {
    var size :- TakeInt(s);
    var flag :- TakeInt(size.1);
    var count :- TakeInt(flag.1);
    var items :- TakeItems(f, count.0, count.1);
    Some((Packet(flag.0 == 1, items.0), items.1))
  }

  lemma TakeFront(a: seq<Byte>, rest: seq<Byte>)
    ensures TakeBytes(a + rest, |a|) == Some((a, rest))
  {
    assert (a + rest)[..|a|] == a && (a + rest)[|a|..] == rest;
  }

  lemma IntBack(n: nat, rest: seq<Byte>)
    requires n < INT_LIMIT
    ensures TakeInt(Int4(n) + rest) == Some((n, rest))
  {
    TakeFront(Int4(n), rest);
  }

  lemma ItemBack(f: Format, it: Item, rest: seq<Byte>)
    requires Fits(f, it)
    ensures TakeItem(f, EncodeItem(f, it) + rest) == Some((it, rest))
  {
    hide TakeBytes, TakeInt, Int4, FromInt4;
    var afterValue := it.hash + rest;
    var afterSize := it.value + afterValue;
    var afterKey := (if f.inlineValue then [] else Int4(|it.value|)) + afterSize;
    assert EncodeItem(f, it) + rest == Int4(|it.key|) + (it.key + afterKey);
    IntBack(|it.key|, it.key + afterKey);
    TakeFront(it.key, afterKey);
    if !f.inlineValue {
      IntBack(|it.value|, afterSize);
    } else {
      assert afterKey == afterSize;
    }
    TakeFront(it.value, afterValue);
    TakeFront(it.hash, rest);
  }

  lemma {:induction false} EncodeItemsCons(f: Format, items: seq<Item>)
    requires AllFit(f, items) && items != []
    ensures AllFit(f, items[1..]) && EncodeItems(f, items) == EncodeItem(f, items[0]) + EncodeItems(f, items[1..])
  {
    hide EncodeItem, Fits;
    var n := |items| - 1;
    if n > 0 {
      EncodeItemsCons(f, items[..n]);
      assert items[..n][1..] == items[1..][..n - 1];
      assert items[1..][n - 1] == items[n];
    } else {
      assert items[1..] == [] && items[..n] == [];
    }
  }

  lemma {:induction false} ItemsBack(f: Format, items: seq<Item>, rest: seq<Byte>)
    requires AllFit(f, items)
    ensures TakeItems(f, |items|, EncodeItems(f, items) + rest) == Some((items, rest))
  {
    hide EncodeItem, Fits, TakeItem;
    if items != [] {
      EncodeItemsCons(f, items);
      var tail := EncodeItems(f, items[1..]) + rest;
      assert EncodeItems(f, items) + rest == EncodeItem(f, items[0]) + tail;
      ItemBack(f, items[0], tail);
      ItemsBack(f, items[1..], rest);
      assert [items[0]] + items[1..] == items;
    } else {
      assert EncodeItems(f, items) + rest == rest;
    }
  }

  /** Whatever follows on the channel, the packet comes back and nothing behind it is consumed. */
  lemma RoundTrip(f: Format, p: Packet, rest: seq<Byte>)
    requires Sendable(f, p)
    ensures Decode(f, Encode(f, p) + rest) == Some((p, rest))
  {
    hide TakeInt, TakeItems, Int4, FromInt4, EncodeItems, PacketSize, AllFit;
    var tail := EncodeItems(f, p.items) + rest;
    assert Encode(f, p) + rest == Int4(PacketSize(f, p.items)) + (Int4(Flag(p.last)) + (Int4(|p.items|) + tail));
    IntBack(PacketSize(f, p.items), Int4(Flag(p.last)) + (Int4(|p.items|) + tail));
    IntBack(Flag(p.last), Int4(|p.items|) + tail);
    IntBack(|p.items|, tail);
    ItemsBack(f, p.items, rest);
  }

  ghost predicate AllSendable(f: Format, ps: seq<Packet>) {
    forall i :: 0 <= i < |ps| ==> Sendable(f, ps[i])
  }

  function EncodeAll(f: Format, ps: seq<Packet>): seq<Byte>
    requires AllSendable(f, ps)
  {
    if ps == [] then [] else Encode(f, ps[0]) + EncodeAll(f, ps[1..])
  }

  function DecodeAll(f: Format, s: seq<Byte>, n: nat): Option<(seq<Packet>, seq<Byte>)>
    decreases n
  {
    if n == 0 then Some(([], s)) else
      var first :- Decode(f, s);
      var others :- DecodeAll(f, first.1, n - 1);
      Some(([first.0] + others.0, others.1))
  }

  /** A whole channel: one packet per call, in order, with the bytes behind them left alone. */
  lemma {:induction false} StreamRoundTrip(f: Format, ps: seq<Packet>, rest: seq<Byte>)
    requires AllSendable(f, ps)
    ensures DecodeAll(f, EncodeAll(f, ps) + rest, |ps|) == Some((ps, rest))
  {
    hide Encode, Decode, Sendable;
    if ps == [] {
      assert EncodeAll(f, ps) + rest == rest;
    } else {
      var tail := EncodeAll(f, ps[1..]) + rest;
      assert EncodeAll(f, ps) + rest == Encode(f, ps[0]) + tail;
      RoundTrip(f, ps[0], tail);
      StreamRoundTrip(f, ps[1..], rest);
      assert [ps[0]] + ps[1..] == ps;
    }
  }

  lemma {:induction false} EncodeSnoc(f: Format, ps: seq<Packet>, p: Packet)
    requires AllSendable(f, ps) && Sendable(f, p)
    ensures AllSendable(f, ps + [p]) && EncodeAll(f, ps + [p]) == EncodeAll(f, ps) + Encode(f, p)
  {
    hide Encode, Sendable;
    if ps == [] {
      assert (ps + [p])[1..] == [] && (ps + [p])[0] == p;
      assert EncodeAll(f, [p]) == Encode(f, p) + EncodeAll(f, []);
      assert ps + [p] == [p];
    } else {
      assert (ps + [p])[1..] == ps[1..] + [p];
      EncodeSnoc(f, ps[1..], p);
      assert (ps + [p])[0] == ps[0];
    }
  }

  // ---- writing

  method WriteItem(bio: BufferedWriter, fdw: int, f: Format, it: Item) returns (bytes: nat)
    requires bio.Valid() && Fits(f, it)
    modifies bio, bio.buf
    ensures bio.Valid() && bytes == |EncodeItem(f, it)|
    ensures bio.Sent(fdw) == old(bio.Sent(fdw)) + EncodeItem(f, it)
    ensures forall h :: h != fdw ==> Given(bio.sinks, h) == Given(old(bio.sinks), h)
  {
    hide Int4, Given;
    hide bio.Sent;
    bytes := bio.Write(fdw, Int4(|it.key|));
    var n := bio.Write(fdw, it.key);
    bytes := bytes + n;
    if f.inlineValue {
      n := bio.Write(fdw, it.value);
      bytes := bytes + n;
    } else {
      n := bio.Write(fdw, Int4(|it.value|));
      bytes := bytes + n;
      n := bio.Write(fdw, it.value);
      bytes := bytes + n;
    }
    n := bio.Write(fdw, it.hash);
    bytes := bytes + n;
  }

  /** WriteDataToReduce: with an empty buffer before, the packet reaches this handle whole, the
      buffer is empty again, and no other handle receives anything. */
  method WriteDataToReduce(bio: BufferedWriter, fdw: int, f: Format, p: Packet)
    requires bio.Valid() && bio.cursor == 0 && Sendable(f, p)
    modifies bio, bio.buf
    ensures bio.Valid() && bio.cursor == 0
    ensures Given(bio.sinks, fdw) == Given(old(bio.sinks), fdw) + Encode(f, p)
    ensures forall h :: h != fdw ==> Given(bio.sinks, h) == Given(old(bio.sinks), h)
  {
    hide Int4, Given, EncodeItem, EncodeItems, Encode, PacketSize, AllFit;
    ghost var before := Given(bio.sinks, fdw);
    assert bio.Sent(fdw) == before;
    var size := CalculateSendingDataSize(f, p.items);
    var n := bio.Write(fdw, Int4(size));
    var bytes := bio.Write(fdw, Int4(Flag(p.last)));
    n := bio.Write(fdw, Int4(|p.items|));
    bytes := bytes + n;
    n := WriteItems(bio, fdw, f, p.items);
    bytes := bytes + n;
    EncodeParts(f, p, before);
    bio.Flush(fdw);
    SizeExact(f, p);
    assert bytes == size;
  }

  lemma EncodeParts(f: Format, p: Packet, before: seq<Byte>)
    requires Sendable(f, p)
    ensures before + Int4(PacketSize(f, p.items)) + Int4(Flag(p.last)) + Int4(|p.items|) + EncodeItems(f, p.items) ==
              before + Encode(f, p)
  {
    hide Int4, EncodeItems, PacketSize, AllFit;
  }

  method WriteItems(bio: BufferedWriter, fdw: int, f: Format, items: seq<Item>) returns (bytes: nat)
    requires bio.Valid() && AllFit(f, items)
    modifies bio, bio.buf
    ensures bio.Valid() && bytes == |EncodeItems(f, items)|
    ensures bio.Sent(fdw) == old(bio.Sent(fdw)) + EncodeItems(f, items)
    ensures forall h :: h != fdw ==> Given(bio.sinks, h) == Given(old(bio.sinks), h)
  {
    hide Given, EncodeItem, Fits;
    hide bio.Sent;
    bytes := 0;
    for i := 0 to |items|
      invariant bio.Valid() && bytes == |EncodeItems(f, items[..i])|
      invariant bio.Sent(fdw) == old(bio.Sent(fdw)) + EncodeItems(f, items[..i])
      invariant forall h :: h != fdw ==> Given(bio.sinks, h) == Given(old(bio.sinks), h)
    {
      assert items[..i + 1][..i] == items[..i];
      var n := WriteItem(bio, fdw, f, items[i]);
      bytes := bytes + n;
    }
    assert items[..|items|] == items;
  }

  // ---- reading

  /** A read from a buffer that already holds the rest of the packet. */
  method ReadHeld(bio: BufferedReader, n: nat, ghost front: seq<Byte>, ghost rest: seq<Byte>) returns (data: seq<Byte>)
    requires bio.Valid() && bio.Unread() == front + rest && |front| == n > 0
    modifies bio, bio.buf
    ensures bio.Valid() && bio.source == old(bio.source)
    ensures data == front && bio.Unread() == rest
  {
    ghost var s := bio.Stream();
    assert |bio.Unread()| == bio.datasize - bio.cursor;
    var got;
    got, data := bio.Read(n);
    assert got > 0;
    assert s == front + (rest + bio.source);
    Cancel(bio.Unread(), rest, bio.source);
  }

  lemma Cancel(a: seq<Byte>, b: seq<Byte>, c: seq<Byte>)
    requires a + c == b + c
    ensures a == b
  {
    assert |a| == |b|;
    assert a == (a + c)[..|a|] && b == (b + c)[..|b|];
  }

  method ReadWord(bio: BufferedReader, ghost n: nat, ghost rest: seq<Byte>) returns (r: nat)
    requires bio.Valid() && n < INT_LIMIT && bio.Unread() == Int4(n) + rest
    modifies bio, bio.buf
    ensures bio.Valid() && bio.source == old(bio.source)
    ensures r == n && bio.Unread() == rest
  {
    hide FromInt4;
    var w := ReadHeld(bio, 4, Int4(n), rest);
    r := FromInt4(w);
  }

  lemma ItemShape(f: Format, it: Item, rest: seq<Byte>)
    requires Fits(f, it)
    ensures f.inlineValue ==> EncodeItem(f, it) + rest == Int4(|it.key|) + (it.key + (it.value + (it.hash + rest)))
    ensures !f.inlineValue ==>
              EncodeItem(f, it) + rest == Int4(|it.key|) + (it.key + (Int4(|it.value|) + (it.value + (it.hash + rest))))
  {
    hide Int4;
  }

  method ReadItem(bio: BufferedReader, f: Format, ghost it: Item, ghost rest: seq<Byte>) returns (r: Item, bytes: nat)
    requires bio.Valid() && Fits(f, it) && bio.Unread() == EncodeItem(f, it) + rest
    modifies bio, bio.buf
    ensures bio.Valid() && bio.source == old(bio.source)
    ensures r == it && bytes == |EncodeItem(f, it)| && bio.Unread() == rest
  {
    hide Int4, FromInt4, EncodeItem;
    hide bio.Unread, bio.Valid;
    ItemShape(f, it, rest);
    ItemLength(f, it);
    ghost var s2 := it.value + (it.hash + rest);
    ghost var s1 := if f.inlineValue then s2 else Int4(|it.value|) + s2;
    var keySize := ReadWord(bio, |it.key|, it.key + s1);
    var key := ReadHeld(bio, keySize, it.key, s1);
    var valueSize := 4;
    bytes := 4 + keySize;
    if !f.inlineValue {
      valueSize := ReadWord(bio, |it.value|, s2);
      bytes := bytes + 4;
    }
    var value := ReadHeld(bio, valueSize, it.value, it.hash + rest);
    var hash := ReadHeld(bio, f.hashSize, it.hash, rest);
    bytes := bytes + valueSize + f.hashSize;
    r := Item(key, value, hash);
  }

  /** The first read: the buffer has exactly the packet's size and takes in all of the packet
      and nothing behind it. */
  method ReadFirst(bio: BufferedReader, ghost n: nat, ghost tail: seq<Byte>, ghost rest: seq<Byte>) returns (r: nat)
    requires bio.Valid() && bio.cursor == bio.datasize && n < INT_LIMIT
    requires bio.source == Int4(n) + tail + rest && bio.buf.Length == 4 + |tail|
    modifies bio, bio.buf
    ensures bio.Valid() && bio.source == rest
    ensures r == n && bio.Unread() == tail
  {
    hide Int4, FromInt4;
    ghost var s := bio.Stream();
    assert s == Int4(n) + (tail + rest);
    var got, w := bio.Read(4);
    assert bio.Stream() == tail + rest;
    assert |bio.source| == |rest|;
    assert bio.source == (tail + rest)[|tail|..];
    Cancel(bio.Unread(), tail, rest);
    assert w == Int4(n);
    r := FromInt4(w);
  }

  lemma PacketLayout(f: Format, p: Packet, rest: seq<Byte>)
    requires Sendable(f, p)
    ensures var s, tail := Encode(f, p) + rest, Int4(|p.items|) + EncodeItems(f, p.items);
            && |s| >= 4 && s[..4] == Int4(PacketSize(f, p.items))
            && s[4..] == Int4(Flag(p.last)) + tail + rest
            && PacketSize(f, p.items) == 4 + |tail| == 8 + |EncodeItems(f, p.items)|
  {
    hide Int4, PacketSize, EncodeItems, AllFit;
    SizeExact(f, p);
    TakeFront(Int4(PacketSize(f, p.items)), Body(f, p) + rest);
    assert Encode(f, p) + rest == Int4(PacketSize(f, p.items)) + (Body(f, p) + rest);
  }

  /** RecvDataFromSingleMap: the size word is read unbuffered, the packet through a buffer of
      exactly its size, so that nothing behind the packet is taken off the channel. */
  method RecvDataFromSingleMap(f: Format, source: seq<Byte>, ghost p: Packet, ghost rest: seq<Byte>)
      returns (last: bool, items: seq<Item>, left: seq<Byte>)
    requires Sendable(f, p) && source == Encode(f, p) + rest
    ensures last == p.last && items == p.items && left == rest
  {
    hide Int4, FromInt4, PacketSize, EncodeItem, Fits, EncodeItems, Encode;
    PacketLayout(f, p, rest);
    var size := FromInt4(source[..4]);
    ghost var tail := Int4(|p.items|) + EncodeItems(f, p.items);
    var bio := new BufferedReader(size, source[4..]);
    var flag := ReadFirst(bio, Flag(p.last), tail, rest);
    last := flag == 1;
    var count := ReadWord(bio, |p.items|, EncodeItems(f, p.items));
    var bytes;
    bytes, items := ReadItems(bio, f, count, p.items);
    assert bytes + 8 == size;
    left := bio.source;
  }

  method ReadItems(bio: BufferedReader, f: Format, count: nat, ghost sent: seq<Item>)
    returns (bytes: nat, items: seq<Item>)
    requires bio.Valid() && AllFit(f, sent) && count == |sent| && bio.Unread() == EncodeItems(f, sent)
    modifies bio, bio.buf
    ensures bio.source == old(bio.source) && items == sent && bytes == |EncodeItems(f, sent)|
  {
    hide EncodeItem, Fits;
    hide bio.Unread;
    bytes, items := 0, [];
    assert sent[0..] == sent;
    for i := 0 to count
      invariant bio.Valid() && bio.source == old(bio.source) && items == sent[..i]
      invariant bio.Unread() == EncodeItems(f, sent[i..])
      invariant bytes + |EncodeItems(f, sent[i..])| == |EncodeItems(f, sent)|
    {
      EncodeItemsCons(f, sent[i..]);
      assert sent[i..][1..] == sent[i + 1..];
      var it, k := ReadItem(bio, f, sent[i], EncodeItems(f, sent[i + 1..]));
      items := items + [it];
      bytes := bytes + k;
    }
  }
}
