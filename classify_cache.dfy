/**
 * The result cache of the pattern classifier (src/alg/classify.c).
 *
 * For n patterns the cache keeps one 2-bit slot per unordered pair of
 * pattern ids {a, b}.  Row a (the smaller id) holds the slots of all
 * b >= a, four per byte, packed from the end of the row: the slot of b
 * lives in byte (n - b - 1) / 4 of row a, in bits 2*(b % 4) and
 * 2*(b % 4) + 1.  A slot stores the comparator outcome plus one, so the
 * initial all-ones byte 0xFF decodes to 2 in every slot: "not compared".
 */
module ClassifyCache {

  /** Outcome of the pattern comparator: -1 different, 0 unknown, 1 same class. */
  type Tri = x: int | -1 <= x <= 1

  /** What an empty slot decodes to. */
  const Unknown: int := 2

  /** Byte masks clearing the 2-bit field of a shift. */
  const Masks: seq<bv8> := [0xFC, 0xF3, 0xCF, 0x3F]

  /** Bytes in row i of a cache for `size` patterns (slots b = i .. size-1, rounded up). */
  function RowBytes(size: nat, i: nat): nat
    requires i <= size
  {
    (size - i + 3) / 4
  }

  /** Offset of row i in the single buffer that new_cache carves into rows. */
  function RowStart(size: nat, i: nat): nat
    requires i <= size
  {
    if i == 0 then 0 else RowStart(size, i - 1) + RowBytes(size, i - 1)
  }

  /** Bytes allocated for the whole cache. */
  function BufferBytes(size: nat): nat
  {
    RowStart(size, size)
  }

  /** Byte of row min(a, b) that holds the pair, counted from the row start. */
  function ByteInRow(size: nat, b: nat): nat
    requires b < size
  {
    (size - b - 1) / 4
  }

  function Min(a: nat, b: nat): nat { if a <= b then a else b }
  function Max(a: nat, b: nat): nat { if a <= b then b else a }

  /** Absolute buffer offset of the byte holding the unordered pair {a, b}. */
  function Addr(size: nat, a: nat, b: nat): nat
    requires a < size && b < size
  {
    RowStart(size, Min(a, b)) + ByteInRow(size, Max(a, b))
  }

  /** Bit offset of the field with shift s (shift*2 in the source). */
  function FieldOffset(s: nat): bv8
    requires s < 4
  {
    if s == 0 then 0 else if s == 1 then 2 else if s == 2 then 4 else 6
  }

  /** The 2-bit field of byte x at shift s. */
  function Field(x: bv8, s: nat): bv8
    requires s < 4
  {
    (x >> FieldOffset(s)) & 3
  }

  /** Byte x with its field at shift s replaced by v, as set_cache computes it. */
  function Store(x: bv8, s: nat, v: bv8): bv8
    requires s < 4 && v < 4
  {
    (x & Masks[s]) | (v << FieldOffset(s))
  }

  /** Decoded slot of the pair {a, b} in a buffer snapshot. */
  function SlotValue(size: nat, bytes: seq<bv8>, a: nat, b: nat): int
    requires a < size && b < size && |bytes| == BufferBytes(size)
  {
    AddrInBuffer(size, a, b);
    (Field(bytes[Addr(size, a, b)], Max(a, b) % 4) as int) - 1
  }

  lemma {:induction false} StoreField(x: bv8, s: nat, v: bv8, t: nat)
    requires s < 4 && v < 4 && t < 4
    ensures Field(Store(x, s, v), t) == if s == t then v else Field(x, t)
  {
    if s == 0 {
      if t == 0 {} else if t == 1 {} else if t == 2 {} else {}
    } else if s == 1 {
      if t == 0 {} else if t == 1 {} else if t == 2 {} else {}
    } else if s == 2 {
      if t == 0 {} else if t == 1 {} else if t == 2 {} else {}
    } else {
      if t == 0 {} else if t == 1 {} else if t == 2 {} else {}
    }
  }

  /** Every field of the fill byte 0xFF decodes to Unknown. */
  lemma {:induction false} FillByteIsUnknown(t: nat)
    requires t < 4
    ensures (Field(0xFF, t) as int) - 1 == Unknown
  {
  }

  /** A buffer filled with 0xFF, as memset leaves it, reads Unknown in every slot. */
  lemma {:induction false} FilledBufferIsUnknown(size: nat, bytes: seq<bv8>)
    requires |bytes| == BufferBytes(size)
    requires forall k :: 0 <= k < |bytes| ==> bytes[k] == 0xFF
    ensures forall a: nat, b: nat :: a < size && b < size ==> SlotValue(size, bytes, a, b) == Unknown
  {
    forall a: nat, b: nat | a < size && b < size
      ensures SlotValue(size, bytes, a, b) == Unknown
    {
      AddrInBuffer(size, a, b);
      FillByteIsUnknown(Max(a, b) % 4);
    }
  }

  lemma {:induction false} RowStartStep(size: nat, i: nat)
    requires i < size
    ensures RowStart(size, i + 1) == RowStart(size, i) + RowBytes(size, i)
  {
  }

  lemma {:induction false} RowStartMonotone(size: nat, i: nat, j: nat)
    requires i <= j <= size
    ensures RowStart(size, i) <= RowStart(size, j)
    decreases j - i
  {
    if i < j {
      RowStartMonotone(size, i, j - 1);
    }
  }

  /** The byte of column b lies inside row a whenever a <= b. */
  lemma {:induction false} ByteInsideRow(size: nat, a: nat, b: nat)
    requires a <= b < size
    ensures ByteInRow(size, b) < RowBytes(size, a)
  {
    assert (size - b - 1) / 4 <= (size - a - 1) / 4;
    assert (size - a + 3) / 4 == (size - a - 1) / 4 + 1;
  }

  /** Every pair is addressed inside the allocated buffer. */
  lemma {:induction false} AddrInBuffer(size: nat, a: nat, b: nat)
    requires a < size && b < size
    ensures Addr(size, a, b) < BufferBytes(size)
  {
    var lo, hi := Min(a, b), Max(a, b);
    ByteInsideRow(size, lo, hi);
    RowStartStep(size, lo);
    RowStartMonotone(size, lo + 1, size);
  }

  /** Two bytes in one row hold the same shift only for the same column. */
  lemma {:induction false} SameByteDistinctShift(size: nat, b1: nat, b2: nat)
    requires b1 < size && b2 < size && b1 != b2
    requires ByteInRow(size, b1) == ByteInRow(size, b2)
    ensures b1 % 4 != b2 % 4
  {
    var m1, m2 := size - b1 - 1, size - b2 - 1;
    assert m1 / 4 == m2 / 4;
    assert m1 % 4 != m2 % 4;
    assert b1 == size - 1 - m1 && b2 == size - 1 - m2;
  }

  /**
   * Distinct unordered pairs never share a slot: either their bytes differ or
   * their shifts do.  This is what makes the packed triangle a faithful table.
   */
  lemma {:induction false} SlotsDistinct(size: nat, a1: nat, b1: nat, a2: nat, b2: nat)
    requires a1 < size && b1 < size && a2 < size && b2 < size
    requires Min(a1, b1) != Min(a2, b2) || Max(a1, b1) != Max(a2, b2)
    ensures Addr(size, a1, b1) != Addr(size, a2, b2) || Max(a1, b1) % 4 != Max(a2, b2) % 4
  {
    var lo1, hi1, lo2, hi2 := Min(a1, b1), Max(a1, b1), Min(a2, b2), Max(a2, b2);
    if lo1 < lo2 {
      ByteInsideRow(size, lo1, hi1);
      RowStartStep(size, lo1);
      RowStartMonotone(size, lo1 + 1, lo2);
    } else if lo2 < lo1 {
      ByteInsideRow(size, lo2, hi2);
      RowStartStep(size, lo2);
      RowStartMonotone(size, lo2 + 1, lo1);
    } else if Addr(size, a1, b1) == Addr(size, a2, b2) {
      SameByteDistinctShift(size, hi1, hi2);
    }
  }

  /** The row pointers of new_cache and the total byte count mem_req. */
  method RowOffsets(n: nat) returns (offs: seq<nat>, memReq: nat)
    ensures |offs| == n && memReq == BufferBytes(n)
    ensures forall k {:trigger offs[k]} :: 0 <= k < n ==> offs[k] == RowStart(n, k)
  {
    offs := [];
    memReq := 0;
    var i := 0;
    while i < n
      invariant i <= n && |offs| == i && memReq == RowStart(n, i)
      invariant forall k {:trigger offs[k]} :: 0 <= k < i ==> offs[k] == RowStart(n, k)
    {
      offs := offs + [memReq];
      memReq := memReq + RowBytes(n, i);
      i := i + 1;
    }
  }

  /** malloc plus memset(buf, 0xFF, mem_req). */
  method FilledBuffer(len: nat) returns (b: array<bv8>)
    ensures fresh(b) && b.Length == len
    ensures forall j :: 0 <= j < len ==> b[j] == 0xFF
  {
    b := new bv8[len];
    var k := 0;
    while k < len
      invariant k <= len
      invariant forall j :: 0 <= j < k ==> b[j] == 0xFF
    {
      b[k] := 0xFF;
      k := k + 1;
    }
  }

  /** The cache proper: row offsets into one byte buffer (CachedResults). */
  class Cache {
    const size: nat
    const rows: seq<nat>
    const buf: array<bv8>

    ghost predicate Valid()
      reads this
    {
      |rows| == size && buf.Length == BufferBytes(size) &&
      forall i {:trigger rows[i]} :: 0 <= i < size ==> rows[i] == RowStart(size, i)
    }

    /** What get_cache_and_line decodes for the pair {a, b}. */
    function Lookup(a: nat, b: nat): int
      reads this, buf
      requires Valid() && a < size && b < size
    {
      SlotValue(size, buf[..], a, b)
    }

    /** new_cache: size rows, every slot Unknown. */
    constructor (n: nat)
      ensures Valid() && size == n && fresh(buf)
      ensures forall a: nat, b: nat :: a < n && b < n ==> Lookup(a, b) == Unknown
    {
      var offs, memReq := RowOffsets(n);
      var b := FilledBuffer(memReq);
      size := n;
      rows := offs;
      buf := b;
      new;
      FilledBufferIsUnknown(n, buf[..]);
    }

    /** set_cache_by_line: store val for {a, b}, given the row of min(a, b). */
    method SetByLine(line: nat, a: nat, b: nat, val: Tri)
      requires Valid() && a < size && b < size && line == rows[Min(a, b)]
      modifies buf
      ensures Valid()
      ensures Lookup(a, b) == val
      ensures forall x: nat, y: nat :: x < size && y < size && (Min(x, y) != Min(a, b) || Max(x, y) != Max(a, b)) ==>
                Lookup(x, y) == old(Lookup(x, y))
    {
      var v := val + 1;
      var lo, hi := a, b;
      if lo > hi { lo, hi := hi, lo; }
      AddrInBuffer(size, a, b);
      var at := line + (size - hi - 1) / 4;
      var shift := hi % 4;
      ghost var before := buf[..];
      buf[at] := Store(buf[at], shift, v as bv8);
      StoreField(before[at], shift, v as bv8, shift);
      forall x: nat, y: nat | x < size && y < size && (Min(x, y) != Min(a, b) || Max(x, y) != Max(a, b))
        ensures Lookup(x, y) == SlotValue(size, before, x, y)
      {
        AddrInBuffer(size, x, y);
        SlotsDistinct(size, x, y, a, b);
        if Addr(size, x, y) == at {
          StoreField(before[at], shift, v as bv8, Max(x, y) % 4);
        }
      }
    }

    /** set_cache: as SetByLine, looking the row up itself. */
    method Set(a: nat, b: nat, val: Tri)
      requires Valid() && a < size && b < size
      modifies buf
      ensures Valid()
      ensures Lookup(a, b) == val
      ensures forall x: nat, y: nat :: x < size && y < size && (Min(x, y) != Min(a, b) || Max(x, y) != Max(a, b)) ==>
                Lookup(x, y) == old(Lookup(x, y))
    {
      SetByLine(rows[Min(a, b)], a, b, val);
    }

    /** get_cache_and_line: the decoded slot and the row it was read from. */
    method GetAndLine(a: nat, b: nat) returns (r: int, line: nat)
      requires Valid() && a < size && b < size
      ensures r == Lookup(a, b) && line == rows[Min(a, b)]
      ensures r == Unknown || -1 <= r <= 1
    {
      var lo, hi := a, b;
      if lo > hi { lo, hi := hi, lo; }
      line := rows[lo];
      AddrInBuffer(size, a, b);
      var x := buf[line + (size - hi - 1) / 4];
      x := x >> FieldOffset(hi % 4);
      r := ((x & 3) as int) - 1;
    }
  }
}
