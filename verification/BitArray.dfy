/** The bitmap of lib/helpers/bitarray.c and its search for a run of clear bits. */
module BitArrays {

  // ---- one byte

  /** A bit's place in its byte as a shift amount. */
  function Place(j: nat): (p: bv8)
    requires j < 8
    ensures p < 8
  {
    if j == 0 then 0 else if j == 1 then 1 else if j == 2 then 2 else if j == 3 then 3 else
    if j == 4 then 4 else if j == 5 then 5 else if j == 6 then 6 else 7
  }

  function Bit(b: bv8, j: nat): bool
    requires j < 8
  {
    1 & (b >> Place(j)) == 1
  }

  lemma PlacesDiffer(j: nat, k: nat)
    requires j < 8 && k < 8
    ensures Place(j) == Place(k) <==> j == k
  {
  }

  lemma FlipPlace(b: bv8, p: bv8, q: bv8)
    requires p < 8 && q < 8
    ensures 1 & ((b ^ (1 << p)) >> q) == if p == q then 1 ^ (1 & (b >> q)) else 1 & (b >> q)
  {
  }

  lemma OneBit(b: bv8)
    ensures 1 & b == 0 || 1 & b == 1
  {
  }

  lemma FlipBit(b: bv8, j: nat, k: nat)
    requires j < 8 && k < 8
    ensures Bit(b ^ (1 << Place(j)), k) == if j == k then !Bit(b, k) else Bit(b, k)
  {
    hide Place;
    PlacesDiffer(j, k);
    FlipPlace(b, Place(j), Place(k));
    OneBit(b >> Place(k));
  }

  lemma FullByte(j: nat)
    requires j < 8
    ensures Bit(0xFF, j)
  {
  }

  function Unpacked(bytes: seq<bv8>): (bits: seq<bool>)
    ensures |bits| == 8 * |bytes|
    ensures forall i :: 0 <= i < |bits| ==> bits[i] == Bit(bytes[i / 8], i % 8)
  {
    seq(8 * |bytes|, i requires 0 <= i < 8 * |bytes| => Bit(bytes[i / 8], i % 8))
  }

  function Flipped(bytes: seq<bv8>, index: nat): seq<bv8>
    requires index < 8 * |bytes|
  {
    bytes[index / 8 := bytes[index / 8] ^ (1 << Place(index % 8))]
  }

  lemma FlippedAt(bytes: seq<bv8>, index: nat, i: nat)
    requires index < 8 * |bytes| && i < 8 * |bytes|
    ensures Unpacked(Flipped(bytes, index))[i] == if i == index then !Unpacked(bytes)[i] else Unpacked(bytes)[i]
  {
    hide Bit, Place;
    if i / 8 == index / 8 {
      FlipBit(bytes[index / 8], index % 8, i % 8);
    }
  }

  lemma FlippedOne(bytes: seq<bv8>, index: nat)
    requires index < 8 * |bytes|
    ensures Unpacked(Flipped(bytes, index)) == Unpacked(bytes)[index := !Unpacked(bytes)[index]]
  {
    hide Unpacked, Flipped;
    assert |Flipped(bytes, index)| == |bytes| by { FlippedLength(bytes, index); }
    forall i | 0 <= i < 8 * |bytes|
      ensures Unpacked(Flipped(bytes, index))[i] == if i == index then !Unpacked(bytes)[i] else Unpacked(bytes)[i]
    {
      FlippedAt(bytes, index, i);
    }
  }

  lemma FlippedLength(bytes: seq<bv8>, index: nat)
    requires index < 8 * |bytes|
    ensures |Flipped(bytes, index)| == |bytes|
  {
  }

  // ---- runs of clear bits, bit by bit

  ghost predicate Clear(bits: seq<bool>, start: nat, n: nat) {
    start + n <= |bits| && forall i :: start <= i < start + n ==> !bits[i]
  }

  /** The first start, from place s on, of n clear bits: the plain search. */
  ghost function LowestRunFrom(bits: seq<bool>, n: nat, s: nat): (r: int)
    ensures r == -1 ==> forall k :: k >= s ==> !Clear(bits, k, n)
    ensures r != -1 ==> s <= r && Clear(bits, r, n) && forall k :: s <= k < r ==> !Clear(bits, k, n)
    decreases |bits| - s
  {
    if s + n > |bits| then -1
    else if Clear(bits, s, n) then s
    else if s == |bits| then -1
    else LowestRunFrom(bits, n, s + 1)
  }

  ghost function LowestRun(bits: seq<bool>, n: nat): (r: int)
    ensures r == -1 ==> forall k: nat :: !Clear(bits, k, n)
    ensures r != -1 ==> 0 <= r && Clear(bits, r, n) && forall k :: 0 <= k < r ==> !Clear(bits, k, n)
  {
    LowestRunFrom(bits, n, 0)
  }

  /** len clear bits end at place p, and no more; no run of n bits ends at or before p. */
  ghost predicate Scanned(bits: seq<bool>, n: nat, p: nat, len: nat) {
    && len <= p <= |bits| && len < n
    && (forall i :: p - len <= i < p ==> !bits[i])
    && (len < p ==> bits[p - len - 1])
    && forall k: nat :: k + n <= p ==> !Clear(bits, k, n)
  }

  lemma ScanSet(bits: seq<bool>, n: nat, p: nat, len: nat)
    requires Scanned(bits, n, p, len) && p < |bits| && bits[p]
    ensures Scanned(bits, n, p + 1, 0)
  {
    forall k: nat | k + n <= p + 1
      ensures !Clear(bits, k, n)
    {
      assert k + n == p + 1 ==> k <= p < k + n && bits[p];
    }
  }

  lemma ScanClear(bits: seq<bool>, n: nat, p: nat, len: nat)
    requires Scanned(bits, n, p, len) && p < |bits| && !bits[p]
    ensures len + 1 < n ==> Scanned(bits, n, p + 1, len + 1)
    ensures len + 1 == n ==> LowestRun(bits, n) == p - len
  {
    if len + 1 < n {
      forall k: nat | k + n <= p + 1
        ensures !Clear(bits, k, n)
      {
        assert k + n == p + 1 ==> k <= p - len - 1 < k + n && bits[p - len - 1];
      }
    } else {
      assert Clear(bits, p - len, n);
      forall k: nat | k < p - len
        ensures !Clear(bits, k, n)
      {
        assert k + n <= p;
      }
    }
  }

  lemma ScanFull(bits: seq<bool>, n: nat, p: nat, len: nat)
    requires Scanned(bits, n, p, len) && p + 8 <= |bits| && forall i :: p <= i < p + 8 ==> bits[i]
    ensures Scanned(bits, n, p + 8, 0)
  {
    forall k: nat | k + n <= p + 8
      ensures !Clear(bits, k, n)
    {
      assert k + n > p ==> k <= k + n - 1 < k + n && bits[k + n - 1];
    }
  }

  lemma ScanDone(bits: seq<bool>, n: nat, len: nat)
    requires Scanned(bits, n, |bits|, len)
    ensures LowestRun(bits, n) == -1
  {
  }

  lemma ScanStart(bits: seq<bool>, n: nat)
    requires n > 0
    ensures Scanned(bits, n, 0, 0)
  {
  }

  // ---- the bitmap

  class BitArray {
    const bytes: array<bv8>
    /** How many of the bytes the search looks at. */
    const arraySize: nat
    var searchPos: int

    ghost predicate Valid()
    {
      arraySize <= bytes.Length
    }

    ghost function Bits(): (bits: seq<bool>)
      reads bytes
      ensures |bits| == 8 * bytes.Length
    {
      Unpacked(bytes[..])
    }

    /** The bits that the search looks at. */
    ghost function Window(): (bits: seq<bool>)
      reads bytes
      requires Valid()
      ensures |bits| == 8 * arraySize
    {
      Bits()[..8 * arraySize]
    }

    constructor (size: nat, arraySize: nat)
      requires arraySize <= size
      ensures Valid() && bytes.Length == size && this.arraySize == arraySize && fresh(bytes)
      ensures forall i :: 0 <= i < 8 * size ==> !Bits()[i]
    {
      bytes := new bv8[size](_ => 0);
      this.arraySize := arraySize;
      searchPos := 0;
      new;
      assert forall j: nat :: j < 8 ==> !Bit(0, j);
    }

    function GetBit(index: nat): (b: bool)
      reads bytes
      requires index < 8 * bytes.Length
      ensures b == Bits()[index]
    {
      Bit(bytes[index / 8], index % 8)
    }

    /** One bit changes and no other. */
    method ToggleBit(index: nat)
      requires index < 8 * bytes.Length
      modifies this`searchPos, bytes
      ensures Bits() == old(Bits())[index := !old(Bits())[index]]
    {
      hide Bit, Place, Unpacked;
      FlippedOne(bytes[..], index);
      bytes[index / 8] := bytes[index / 8] ^ (1 << Place(index % 8));
      assert bytes[..] == Flipped(old(bytes[..]), index);
      if !GetBit(index) && index < searchPos {
        searchPos := index / 8;
      }
    }

    /** The search skips full bytes and finds what the plain search finds. */
    method SearchEmptybitSequenceBegin(n: nat) returns (r: int)
      requires Valid() && n > 0
      modifies this`searchPos
      ensures r == LowestRun(Window(), n)
    {
      hide Scanned, LowestRun, Bit;
      ghost var bits := Window();
      var len := 0;
      ScanStart(bits, n);
      for i := 0 to arraySize
        invariant len < n && Scanned(bits, n, 8 * i, len)
      {
        if bytes[i] != 0xFF {
          var j := 0;
          while j < 8 && len < n
            invariant 0 <= j <= 8
            invariant len < n ==> Scanned(bits, n, 8 * i + j, len)
            invariant len >= n ==> len == n && LowestRun(bits, n) == 8 * i + j - n
          {
            var bit := GetBit(8 * i + j);
            assert bit == bits[8 * i + j];
            if !bit {
              ScanClear(bits, n, 8 * i + j, len);
              len := len + 1;
            } else {
              ScanSet(bits, n, 8 * i + j, len);
              len := 0;
            }
            j := j + 1;
          }
          if len == n {
            searchPos := i;
            var matched := i * 8 + (j - 1);
            return matched - n + 1;
          }
        } else {
          forall k | 8 * i <= k < 8 * i + 8
            ensures bits[k]
          {
            assert k / 8 == i;
            FullByte(k % 8);
          }
          ScanFull(bits, n, 8 * i, len);
          len := 0;
        }
      }
      ScanDone(bits, n, len);
      return -1;
    }
  }
}
