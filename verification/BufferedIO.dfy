/** The buffering layer of lib/helpers/buffered_io.c over byte channels. */
module BufferedIO {
  import opened Orders

  type Byte = x: int | 0 <= x < 256

  /** What a set of channels has been given, by handle. */
  function Given(sinks: map<int, seq<Byte>>, handle: int): seq<Byte> {
    if handle in sinks then sinks[handle] else []
  }

  /** One write buffer in front of all channels: the bytes in it belong to whatever handle the
      next flush names. */
  class BufferedWriter {
    const buf: array<Byte>
    var cursor: nat
    var sinks: map<int, seq<Byte>>

    ghost predicate Valid()
      reads this
    {
      cursor <= buf.Length
    }

    ghost function Held(): seq<Byte>
      reads this, buf
      requires Valid()
    {
      buf[..cursor]
    }

    /** What the channel of this handle holds once the buffer is flushed to it. */
    ghost function Sent(handle: int): seq<Byte>
      reads this, buf
      requires Valid()
    {
      Given(sinks, handle) + Held()
    }

    constructor (size: nat)
      ensures Valid() && cursor == 0 && sinks == map[] && buf.Length == size && fresh(buf)
    {
      buf := new Byte[size](_ => 0);
      cursor := 0;
      sinks := map[];
    }

    /** The system's write: everything arrives. */
    method Deliver(handle: int, data: seq<Byte>)
      modifies this`sinks
      ensures Given(sinks, handle) == Given(old(sinks), handle) + data
      ensures forall h :: h != handle ==> Given(sinks, h) == Given(old(sinks), h)
    {
      sinks := sinks[handle := Given(sinks, handle) + data];
    }

    method Flush(handle: int)
      requires Valid()
      modifies this
      ensures Valid() && cursor == 0
      ensures Given(sinks, handle) == Given(old(sinks), handle) + old(Held())
      ensures forall h :: h != handle ==> Given(sinks, h) == Given(old(sinks), h)
    {
      if cursor != 0 {
        Deliver(handle, buf[..cursor]);
        cursor := 0;
      }
    }

    /** Append to the buffer what fits into it. */
    method Append(data: seq<Byte>)
      requires Valid() && cursor + |data| <= buf.Length
      modifies this`cursor, buf
      ensures Valid() && Held() == old(Held()) + data
    {
      var start := cursor;
      forall i | 0 <= i < |data| {
        buf[start + i] := data[i];
      }
      cursor := cursor + |data|;
    }

    /** Whatever the sizes, the bytes follow those written before on this handle, and no other
        handle is touched. */
    method Write(handle: int, data: seq<Byte>) returns (n: nat)
      requires Valid()
      modifies this, buf
      ensures Valid() && n == |data|
      ensures Sent(handle) == old(Sent(handle)) + data
      ensures forall h :: h != handle ==> Given(sinks, h) == Given(old(sinks), h)
    {
      if |data| <= buf.Length - cursor {
        Append(data);
      } else {
        Flush(handle);
        if |data| <= buf.Length - cursor {
          Append(data);
        } else {
          Deliver(handle, data);
        }
      }
      return |data|;
    }
  }

  class BufferedReader {
    const buf: array<Byte>
    var cursor: nat
    var datasize: nat
    var source: seq<Byte>

    ghost predicate Valid()
      reads this
    {
      cursor <= datasize <= buf.Length
    }

    ghost function Unread(): seq<Byte>
      reads this, buf
      requires Valid()
    {
      buf[cursor..datasize]
    }

    /** All bytes still to be read: those in the buffer and those the channel will deliver. */
    ghost function Stream(): seq<Byte>
      reads this, buf
      requires Valid()
    {
      Unread() + source
    }

    constructor (size: nat, source: seq<Byte>)
      ensures Valid() && buf.Length == size && fresh(buf) && this.source == source
      ensures cursor == datasize == 0 && Stream() == source
    {
      buf := new Byte[size](_ => 0);
      cursor, datasize := 0, 0;
      this.source := source;
    }

    /** The system's read: it delivers what is requested as long as there is something. */
    method Fetch(n: nat) returns (data: seq<Byte>)
      modifies this`source
      ensures data == old(source)[..if n < |old(source)| then n else |old(source)|]
      ensures source == old(source)[|data|..]
    {
      var k := if n < |source| then n else |source|;
      data := source[..k];
      source := source[k..];
    }

    method Copy(n: nat) returns (data: seq<Byte>)
      requires Valid() && n <= datasize - cursor
      modifies this`cursor
      ensures Valid() && data == old(Stream())[..n] && Stream() == old(Stream())[n..] && cursor == old(cursor) + n
    {
      data := buf[cursor..cursor + n];
      cursor := cursor + n;
    }

    /** No bytes are held, or some of those held have been read: so it is until a read fails. */
    ghost predicate Started()
      reads this
    {
      datasize == 0 || cursor > 0
    }

    /** Move the unread bytes to the front and fill the rest of the buffer. */
    method Refill() returns (got: nat)
      requires Valid()
      modifies this, buf
      ensures Valid() && cursor == 0 && got == Min(buf.Length - old(datasize - cursor), |old(source)|)
      ensures |source| == |old(source)| - got
      ensures got > 0 ==> Stream() == old(Stream()) && datasize == old(datasize - cursor) + got
      ensures got == 0 ==> datasize == old(datasize) && source == old(source)
      ensures got == 0 ==> buf[..old(datasize - cursor)] == old(Unread())
      ensures got == 0 ==> buf[old(datasize - cursor)..] == old(buf[datasize - cursor..])
    {
      var inuse := datasize - cursor;
      ghost var unread, src := Unread(), source;
      MoveToFront(inuse);
      var data := Fetch(buf.Length - inuse);
      got := |data|;
      if got > 0 {
        Place(inuse, data);
        datasize := inuse + got;
        Joined(buf[..], inuse, datasize);
        Regrouped(unread, data, src, source);
      }
    }

    lemma Joined(s: seq<Byte>, a: nat, b: nat)
      requires a <= b <= |s|
      ensures s[..b] == s[..a] + s[a..b]
    {
    }

    lemma Regrouped(unread: seq<Byte>, data: seq<Byte>, src: seq<Byte>, rest: seq<Byte>)
      requires |data| <= |src| && data == src[..|data|] && rest == src[|data|..]
      ensures unread + data + rest == unread + src
    {
    }

    method MoveToFront(inuse: nat)
      requires Valid() && inuse == datasize - cursor
      modifies `cursor, buf
      ensures cursor == 0 && buf[..inuse] == old(Unread()) && buf[inuse..] == old(buf[inuse..])
    {
      var unread := buf[cursor..datasize];
      forall i | 0 <= i < inuse {
        buf[i] := unread[i];
      }
      cursor := 0;
    }

    method Place(at: nat, data: seq<Byte>)
      requires at + |data| <= buf.Length
      modifies buf
      ensures buf[..at] == old(buf[..at]) && buf[at..at + |data|] == data
              && buf[at + |data|..] == old(buf[at + |data|..])
    {
      forall i | 0 <= i < |data| {
        buf[at + i] := data[i];
      }
    }

    /** buf_read.  It says that all requested bytes were read although fewer arrive exactly when the
        data has fewer.  It returns the requested bytes, in order, whenever they are to be had, with one
        exception: a buffer that is full and unread, asked for more than it holds, reports the
        end of the data although there is more.  A buffer that can hold a byte is never in that
        state before a read has failed.  A failed read moves the unread bytes to the front but
        keeps the old amount, so that bytes already read become readable again exactly when
        there were any. */
    method Read(size: nat) returns (n: int, data: seq<Byte>)
      requires Valid()
      modifies this, buf
      ensures Valid()
      ensures n == -1 <==> size > old(datasize - cursor) && (old(source) == [] || old(datasize - cursor) == buf.Length)
      ensures old(Started()) && n != -1 ==> Started()
      ensures old(Started()) && buf.Length > 0 ==> (n == -1 <==> size > old(datasize - cursor) && old(source) == [])
      ensures n != -1 ==> n == size && (|data| == n <==> size <= |old(Stream())|)
      ensures n != -1 && size <= |old(Stream())| ==> data == old(Stream())[..size] && Stream() == old(Stream())[size..]
      ensures n != -1 && size > |old(Stream())| ==> data == old(Stream()) && Stream() == []
      ensures size <= old(datasize - cursor) ==> source == old(source)
      ensures old(datasize - cursor) < size <= buf.Length <= |old(Stream())| && n != -1 ==>
                |source| == |old(Stream())| - buf.Length
      ensures n == -1 ==> cursor == 0 && datasize == old(datasize) && source == old(source)
      ensures n == -1 ==> Unread() == old(Unread()) + old(buf[datasize - cursor..datasize])
      ensures n == -1 ==> (Unread() == old(Unread()) <==> old(cursor) == 0)
    {
      if size <= datasize - cursor {
        data := Copy(size);
        return size, data;
      }
      var got := Refill();
      if got > 0 {
        data := ReadHeldThenRest(size);
        return size, data;
      } else {
        StaleTail(old(datasize), old(datasize - cursor), old(buf[..]));
        return -1, [];
      }
    }

    /** From a buffer just filled, and what is missing directly from the channel. */
    method ReadHeldThenRest(size: nat) returns (data: seq<Byte>)
      requires Valid() && cursor == 0 && size > 0 && datasize > 0
      modifies this
      ensures Valid() && cursor > 0
      ensures size <= |old(Stream())| ==> data == old(Stream())[..size] && Stream() == old(Stream())[size..]
      ensures size > |old(Stream())| ==> data == old(Stream()) && Stream() == []
      ensures size <= old(datasize) ==> source == old(source)
    {
      ghost var s := Stream();
      if size <= datasize - cursor {
        data := Copy(size);
      } else {
        var cached := datasize - cursor;
        data := Copy(cached);
        assert Stream() == s[cached..] && Stream() == source;
        var more := Fetch(size - cached);
        data := data + more;
      }
    }

    lemma StaleTail(size: nat, inuse: nat, before: seq<Byte>)
      requires cursor == 0 && datasize == size && inuse <= size <= buf.Length == |before|
               && buf[inuse..] == before[inuse..]
      ensures Unread() == buf[..inuse] + before[inuse..size]
    {
      assert buf[..size] == buf[..inuse] + buf[inuse..size];
      assert buf[inuse..size] == buf[inuse..][..size - inuse];
      assert before[inuse..size] == before[inuse..][..size - inuse];
    }
  }

  /** A buffer of no bytes reports the end at once. */
  method EmptyBufferExample() returns (n: int)
    ensures n == -1
  {
    var r := new BufferedReader(0, [7]);
    var data;
    n, data := r.Read(1);
  }

  /** Three bytes are asked for, two arrive, and the call says three. */
  method ShortReadExample() returns (n: int, data: seq<Byte>)
    ensures n == 3 && data == [1, 2]
  {
    var r := new BufferedReader(4, [1, 2]);
    n, data := r.Read(3);
  }

  /** After a failed read a byte is read twice. */
  method StaleExample() returns (data: seq<Byte>)
    ensures data == [2, 3, 4, 4]
  {
    var r := new BufferedReader(4, [1, 2, 3, 4]);
    var n, first := r.Read(1);
    assert r.Stream() == [2, 3, 4] && r.source == [];
    assert r.Unread() == [2, 3, 4] && r.cursor == 1 && r.datasize == 4;
    ghost var tail := r.buf[3..4];
    assert tail == [4] by { assert r.buf[1..4] == [2, 3, 4] && r.buf[3] == r.buf[1..4][2]; }
    n, data := r.Read(4);
    assert r.Unread() == [2, 3, 4] + [4];
    n, data := r.Read(4);
  }
}
