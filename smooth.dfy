/**
 * Smoothing of a packed bilevel bitmap (src/alg/smooth.c).
 *
 * Rows are modelled as sequences of pixels, black = true, pixel 0 first.
 * The source walks each row one machine word (64 pixels) at a time; the
 * model keeps that word structure, since it decides which pixel the
 * word-boundary fix-ups reach, but leaves out the byte swapping that turns
 * the packed bytes into words.
 */
module Smooth {

  datatype Option<T> = None | Some(value: T)

  /** Pixels per machine word (size_t on a 64-bit target). */
  const WordBits: nat := 64

  /** Pixel k of a row; outside the row everything is white. */
  function At(s: seq<bool>, k: int): bool {
    0 <= k < |s| && s[k]
  }

  /** Pixel k of a row that may be absent (the first and last rows of the bitmap). */
  function AtOpt(s: Option<seq<bool>>, k: int): bool {
    s.Some? && At(s.value, k)
  }

  function Count(b: bool): nat { if b then 1 else 0 }

  /** A pixel t with its 3x3 neighbourhood: ul u ur / l t r / dl d dr. */
  datatype Hood = Hood(ul: bool, u: bool, ur: bool, l: bool, t: bool, r: bool, dl: bool, d: bool, dr: bool)

  /**
   * The reference rule for one pixel: a white pixel turns black when all
   * four of its side neighbours are black; a black pixel turns white when
   * none of them is; a black pixel with one side neighbour stays black only
   * when a diagonal pair across that neighbour is black.
   */
  function Reference(h: Hood): bool {
    var score := Count(h.u) + Count(h.d) + Count(h.l) + Count(h.r);
    if !h.t then score == 4
    else if score == 0 then false
    else if score == 1 then
      if h.u || h.d then (h.ul && h.dl) || (h.ur && h.dr) else (h.ul && h.ur) || (h.dl && h.dr)
    else true
  }

  /** One bit position of the bitwise formula of get_smooth. */
  function SmoothBit(h: Hood): (res: bool)
    ensures res == Reference(h)
  {
    var res0 := h.l && h.r && h.u && h.d;
    var res1 := (h.l && h.u) || (h.u && h.r) || (h.r && h.d) || (h.l && h.d) || (h.l && h.r) || (h.u && h.d);
    var res2 := ((h.u || h.d) && ((h.ul && h.dl) || (h.ur && h.dr))) || ((h.l || h.r) && ((h.ul && h.ur) || (h.dl && h.dr)));
    res0 || (h.t && (res1 || res2))
  }

  /** The neighbourhood of bit k in three rows of equal length, white beyond their ends. */
  function Window(u: seq<bool>, t: seq<bool>, d: seq<bool>, k: int): Hood {
    Hood(At(u, k - 1), At(u, k), At(u, k + 1),
         At(t, k - 1), At(t, k), At(t, k + 1),
         At(d, k - 1), At(d, k), At(d, k + 1))
  }

  /**
   * get_smooth on a word: the shifts bring each bit's left and right
   * neighbours into place and shift in white at both ends of the word.
   */
  function GetSmooth(u: seq<bool>, t: seq<bool>, d: seq<bool>): (res: seq<bool>)
    requires |u| == |t| == |d|
    ensures |res| == |t|
    ensures forall k :: 0 <= k < |t| ==> res[k] == Reference(Window(u, t, d, k))
  {
    seq(|t|, k requires 0 <= k < |t| => SmoothBit(Window(u, t, d, k)))
  }

  /** The neighbourhood of pixel p of row t, between rows u and d that may be absent. */
  function HoodOf(u: Option<seq<bool>>, t: seq<bool>, d: Option<seq<bool>>, p: int): Hood {
    Hood(AtOpt(u, p - 1), AtOpt(u, p), AtOpt(u, p + 1),
         At(t, p - 1), At(t, p), At(t, p + 1),
         AtOpt(d, p - 1), AtOpt(d, p), AtOpt(d, p + 1))
  }

  /** The reference result for pixel p of row t, between rows u and d. */
  function Smoothed(u: Option<seq<bool>>, t: seq<bool>, d: Option<seq<bool>>, p: int): bool {
    Reference(HoodOf(u, t, d, p))
  }

  /** Bits in a packed row of n pixels: whole bytes. */
  function RowBits(n: nat): nat { (n + 7) / 8 * 8 }

  /** Words needed for a row of n pixels. */
  function Words(n: nat): nat { (n + WordBits - 1) / WordBits }

  /** Word i of a row as loaded: bytes past the row's end read as white. */
  function Load(s: Option<seq<bool>>, i: nat): (w: seq<bool>)
    ensures |w| == WordBits
    ensures forall k :: 0 <= k < WordBits ==> w[k] == AtOpt(s, WordBits * i + k)
  {
    seq(WordBits, k requires 0 <= k < WordBits => AtOpt(s, WordBits * i + k))
  }

  /** A packed row of n pixels whose padding bits are white. */
  predicate PaddedRow(s: seq<bool>, n: nat) {
    |s| == RowBits(n) && forall k :: n <= k < |s| ==> !s[k]
  }

  predicate PaddedOpt(s: Option<seq<bool>>, n: nat) {
    s.Some? ==> PaddedRow(s.value, n)
  }

  /** Past the end of the row there is nothing to smooth into black. */
  lemma PaddingStaysWhite(u: Option<seq<bool>>, t: seq<bool>, d: Option<seq<bool>>, n: nat, p: int)
    requires PaddedRow(t, n) && n <= p
    ensures !Smoothed(u, t, d, p)
  {
  }

  /**
   * The window the first get_smooth call sees in word i: the last two
   * pixels of word i - 1 followed by the first 62 pixels of word i.
   * Its bits 1 and 2 are pixels WordBits*i - 1 and WordBits*i.
   */
  lemma WindowBits(u: Option<seq<bool>>, t: seq<bool>, d: Option<seq<bool>>, i: nat,
                   ub: seq<bool>, tb: seq<bool>, db: seq<bool>)
    requires ub == [AtOpt(u, WordBits * i - 2), AtOpt(u, WordBits * i - 1)]
    requires tb == [At(t, WordBits * i - 2), At(t, WordBits * i - 1)]
    requires db == [AtOpt(d, WordBits * i - 2), AtOpt(d, WordBits * i - 1)]
    ensures var res := GetSmooth(ub + Load(u, i)[..62], tb + Load(Some(t), i)[..62], db + Load(d, i)[..62]);
      res[1] == Smoothed(u, t, d, WordBits * i - 1) && res[2] == Smoothed(u, t, d, WordBits * i)
  {
    var uv, tv, dv := ub + Load(u, i)[..62], tb + Load(Some(t), i)[..62], db + Load(d, i)[..62];
    WindowRow(u, i, ub);
    WindowRow(Some(t), i, tb);
    WindowRow(d, i, db);
    WindowHood(uv, tv, dv, u, t, d, WordBits * i - 2, 1, WordBits * i - 1);
    WindowHood(uv, tv, dv, u, t, d, WordBits * i - 2, 2, WordBits * i);
  }

  /** Bits 0 .. 3 of window w are pixels base .. base + 3 of row s. */
  predicate Starts(w: seq<bool>, s: Option<seq<bool>>, base: int) {
    At(w, 0) == AtOpt(s, base) && At(w, 1) == AtOpt(s, base + 1) &&
    At(w, 2) == AtOpt(s, base + 2) && At(w, 3) == AtOpt(s, base + 3)
  }

  /**
   * A window whose first four bits are pixels base .. base + 3 of the rows
   * smooths bits 1 and 2 as the reference smooths those pixels.
   */
  lemma WindowHood(uv: seq<bool>, tv: seq<bool>, dv: seq<bool>, u: Option<seq<bool>>, t: seq<bool>, d: Option<seq<bool>>,
                   base: int, k: int, p: int)
    requires 1 <= k <= 2 && p == base + k && |uv| == |tv| == |dv| == WordBits
    requires Starts(uv, u, base) && Starts(tv, Some(t), base) && Starts(dv, d, base)
    ensures GetSmooth(uv, tv, dv)[k] == Smoothed(u, t, d, p)
  {
    assert Window(uv, tv, dv, k) == HoodOf(u, t, d, p);
  }

  /** The first four bits of the shifted window of one row. */
  lemma WindowRow(s: Option<seq<bool>>, i: nat, b: seq<bool>)
    requires b == [AtOpt(s, WordBits * i - 2), AtOpt(s, WordBits * i - 1)]
    ensures Starts(b + Load(s, i)[..62], s, WordBits * i - 2)
  {
    var w := Load(s, i);
    assert w[0] == AtOpt(s, WordBits * i) && w[1] == AtOpt(s, WordBits * i + 1);
  }

  /** Inside a loaded word, the neighbourhood of bit k is that of its pixel. */
  lemma WordWindow(u: Option<seq<bool>>, t: seq<bool>, d: Option<seq<bool>>, i: nat, k: int)
    requires 1 <= k < WordBits - 1
    ensures Window(Load(u, i), Load(Some(t), i), Load(d, i), k) == HoodOf(u, t, d, WordBits * i + k)
  {
    var uc, tc, dc := Load(u, i), Load(Some(t), i), Load(d, i);
    assert uc[k - 1] == AtOpt(u, WordBits * i + k - 1) && uc[k + 1] == AtOpt(u, WordBits * i + k + 1);
    assert tc[k - 1] == At(t, WordBits * i + k - 1) && tc[k + 1] == At(t, WordBits * i + k + 1);
    assert dc[k - 1] == AtOpt(d, WordBits * i + k - 1) && dc[k + 1] == AtOpt(d, WordBits * i + k + 1);
  }

  /** The last two pixels of a loaded word, kept for the next window. */
  lemma LoadTail(s: Option<seq<bool>>, i: nat)
    ensures Load(s, i)[62..] == [AtOpt(s, WordBits * (i + 1) - 2), AtOpt(s, WordBits * (i + 1) - 1)]
  {
    var w := Load(s, i);
    assert w[62..] == [w[62], w[63]];
  }

  /** Bits 1 .. 62 of the second get_smooth call are final. */
  lemma InnerBits(u: Option<seq<bool>>, t: seq<bool>, d: Option<seq<bool>>, i: nat, k: int)
    requires 1 <= k < WordBits - 1
    ensures GetSmooth(Load(u, i), Load(Some(t), i), Load(d, i))[k] == Smoothed(u, t, d, WordBits * i + k)
  {
    WordWindow(u, t, d, i, k);
  }

  /** Bytes of the last word that smooth_row copies out. */
  function TailBytes(n: nat): nat {
    if n % WordBits != 0 then (n % WordBits + 7) / 8 else WordBits / 8
  }

  lemma LastWordFits(n: nat)
    requires n > 0
    ensures WordBits * (Words(n) - 1) + 8 * TailBytes(n) == RowBits(n)
  {
    var q, m := n / WordBits, n % WordBits;
    assert n == WordBits * q + m;
    if m == 0 {
      assert Words(n) == q;
      assert RowBits(n) == 8 * ((WordBits * q + 7) / 8);
      assert (WordBits * q + 7) / 8 == 8 * q;
    } else {
      assert Words(n) == q + 1;
      assert (n + 7) / 8 == 8 * q + (m + 7) / 8;
    }
  }

  /**
   * smooth_row as written: smooths row t of n pixels into row `row` of r,
   * reading the rows above and below when present. Every pixel gets the
   * reference value except the last pixel of the last word: the second
   * get_smooth call clears it, the fix-up that restores it runs at the
   * start of the next word, and after the last word there is none.
   */
  method SmoothRowAsWritten(r: array2<bool>, row: nat, u: Option<seq<bool>>, t: seq<bool>, d: Option<seq<bool>>, n: nat)
    requires row < r.Length0 && r.Length1 == RowBits(n)
    requires PaddedOpt(u, n) && PaddedRow(t, n) && PaddedOpt(d, n)
    modifies r
    ensures forall p :: 0 <= p < r.Length1 ==>
      r[row, p] == (Smoothed(u, t, d, p) && p != WordBits * Words(n) - 1)
    ensures forall q, p :: 0 <= q < r.Length0 && 0 <= p < r.Length1 && q != row ==> r[q, p] == old(r[q, p])
  {
    if n == 0 {
      return;
    }
    var len := Words(n);
    var ub, tb, db := [false, false], [false, false], [false, false];
    var i := 0;
    while i < len
      invariant i <= len
      invariant ub == [AtOpt(u, WordBits * i - 2), AtOpt(u, WordBits * i - 1)]
      invariant tb == [At(t, WordBits * i - 2), At(t, WordBits * i - 1)]
      invariant db == [AtOpt(d, WordBits * i - 2), AtOpt(d, WordBits * i - 1)]
      invariant SmoothedUpTo(r, row, u, t, d, i)
      invariant forall q, p :: 0 <= q < r.Length0 && 0 <= p < r.Length1 && q != row ==> r[q, p] == old(r[q, p])
    {
      ub, tb, db := SmoothWord(r, row, u, t, d, n, i, ub, tb, db);
      i := i + 1;
    }
    if n % 8 != 0 {
      // clear the padding bits of the last byte
      ClearPadding(r, row, n);
    }
    forall p | 0 <= p < r.Length1
      ensures r[row, p] == (Smoothed(u, t, d, p) && p != WordBits * len - 1)
    {
      if n <= p {
        PaddingStaysWhite(u, t, d, n, p);
      }
    }
  }

  /**
   * The pixels of row `row` of r before the last pixel of word i - 1 hold
   * their reference values; that last pixel is still white.
   */
  ghost predicate SmoothedUpTo(r: array2<bool>, row: nat, u: Option<seq<bool>>, t: seq<bool>, d: Option<seq<bool>>, i: nat)
    reads r
    requires row < r.Length0
  {
    (forall p :: 0 <= p < WordBits * i - 1 && p < r.Length1 ==> r[row, p] == Smoothed(u, t, d, p)) &&
    (0 < i && WordBits * i - 1 < r.Length1 ==> !r[row, WordBits * i - 1])
  }

  /**
   * One pass of the loop of smooth_row over word i: the window shifted by
   * two pixels yields the last pixel of word i - 1 (tail) and the first of
   * word i (head); the word itself yields its inner pixels; its first and
   * last bits are masked, the head is put back and the word is stored.
   * Returns the last two pixels of the word for the next window.
   */
  method SmoothWord(r: array2<bool>, row: nat, u: Option<seq<bool>>, t: seq<bool>, d: Option<seq<bool>>, n: nat, i: nat,
                    ub: seq<bool>, tb: seq<bool>, db: seq<bool>) returns (ub': seq<bool>, tb': seq<bool>, db': seq<bool>)
    requires row < r.Length0 && r.Length1 == RowBits(n) && i < Words(n)
    requires ub == [AtOpt(u, WordBits * i - 2), AtOpt(u, WordBits * i - 1)]
    requires tb == [At(t, WordBits * i - 2), At(t, WordBits * i - 1)]
    requires db == [AtOpt(d, WordBits * i - 2), AtOpt(d, WordBits * i - 1)]
    requires SmoothedUpTo(r, row, u, t, d, i)
    modifies r
    ensures ub' == [AtOpt(u, WordBits * (i + 1) - 2), AtOpt(u, WordBits * (i + 1) - 1)]
    ensures tb' == [At(t, WordBits * (i + 1) - 2), At(t, WordBits * (i + 1) - 1)]
    ensures db' == [AtOpt(d, WordBits * (i + 1) - 2), AtOpt(d, WordBits * (i + 1) - 1)]
    ensures SmoothedUpTo(r, row, u, t, d, i + 1)
    ensures forall q, p :: 0 <= q < r.Length0 && 0 <= p < r.Length1 && q != row ==> r[q, p] == old(r[q, p])
  {
    LastWordFits(n);
    var tail, res;
    tail, res, ub', tb', db' := SmoothWordBits(u, t, d, i, ub, tb, db);
    if tail {
      // the last pixel of the previous word
      r[row, WordBits * i - 1] := true;
    }
    var bits := if i == Words(n) - 1 then 8 * TailBytes(n) else WordBits;
    StoreWord(r, row, WordBits * i, res, bits);
    forall p | WordBits * i - 1 <= p < WordBits * (i + 1) - 1 && 0 <= p < r.Length1
      ensures r[row, p] == Smoothed(u, t, d, p)
    {
      if WordBits * i <= p {
        assert r[row, p] == res[p - WordBits * i];
      }
    }
    assert WordBits * (i + 1) - 1 < r.Length1 ==> r[row, WordBits * (i + 1) - 1] == res[WordBits - 1];
  }

  /**
   * The values smooth_row computes for word i before storing it: the tail
   * bit for the last pixel of word i - 1 and the word itself, whose last
   * bit is masked off.
   */
  method SmoothWordBits(u: Option<seq<bool>>, t: seq<bool>, d: Option<seq<bool>>, i: nat,
                        ub: seq<bool>, tb: seq<bool>, db: seq<bool>)
    returns (tail: bool, res: seq<bool>, ub': seq<bool>, tb': seq<bool>, db': seq<bool>)
    requires ub == [AtOpt(u, WordBits * i - 2), AtOpt(u, WordBits * i - 1)]
    requires tb == [At(t, WordBits * i - 2), At(t, WordBits * i - 1)]
    requires db == [AtOpt(d, WordBits * i - 2), AtOpt(d, WordBits * i - 1)]
    ensures ub' == [AtOpt(u, WordBits * (i + 1) - 2), AtOpt(u, WordBits * (i + 1) - 1)]
    ensures tb' == [At(t, WordBits * (i + 1) - 2), At(t, WordBits * (i + 1) - 1)]
    ensures db' == [AtOpt(d, WordBits * (i + 1) - 2), AtOpt(d, WordBits * (i + 1) - 1)]
    ensures tail == Smoothed(u, t, d, WordBits * i - 1)
    ensures |res| == WordBits && !res[WordBits - 1]
    ensures forall k :: 0 <= k < WordBits - 1 ==> res[k] == Smoothed(u, t, d, WordBits * i + k)
  {
    var uc, tc, dc := Load(u, i), Load(Some(t), i), Load(d, i);
    var uv, tv, dv := ub + uc[..62], tb + tc[..62], db + dc[..62];
    ub', tb', db' := uc[62..], tc[62..], dc[62..];
    LoadTail(u, i);
    LoadTail(Some(t), i);
    LoadTail(d, i);
    WindowBits(u, t, d, i, ub, tb, db);
    res := GetSmooth(uv, tv, dv);
    var head;
    tail, head := res[1], res[2];
    res := GetSmooth(uc, tc, dc);
    ghost var inner := res;
    res := res[0 := false][WordBits - 1 := false];
    if head {
      res := res[0 := true];
    }
    forall k | 0 < k < WordBits - 1
      ensures res[k] == Smoothed(u, t, d, WordBits * i + k)
    {
      assert res[k] == inner[k];
      InnerBits(u, t, d, i, k);
    }
  }

  /** Copies the first `bits` pixels of word w into row `row` of r at `at`. */
  method StoreWord(r: array2<bool>, row: nat, at: nat, w: seq<bool>, bits: nat)
    requires row < r.Length0 && bits <= |w| && at + bits <= r.Length1
    modifies r
    ensures forall k :: 0 <= k < bits ==> r[row, at + k] == w[k]
    ensures forall q, p :: 0 <= q < r.Length0 && 0 <= p < r.Length1 && !(q == row && at <= p < at + bits) ==>
      r[q, p] == old(r[q, p])
  {
    var k := 0;
    while k < bits
      invariant k <= bits
      invariant forall j :: 0 <= j < k ==> r[row, at + j] == w[j]
      invariant forall q, p :: 0 <= q < r.Length0 && 0 <= p < r.Length1 && !(q == row && at <= p < at + k) ==>
        r[q, p] == old(r[q, p])
    {
      r[row, at + k] := w[k];
      k := k + 1;
    }
  }

  /** Whitens the pixels from n to the end of row `row`. */
  method ClearPadding(r: array2<bool>, row: nat, n: nat)
    requires row < r.Length0
    modifies r
    ensures forall p :: n <= p < r.Length1 ==> !r[row, p]
    ensures forall q, p :: 0 <= q < r.Length0 && 0 <= p < r.Length1 && !(q == row && n <= p) ==>
      r[q, p] == old(r[q, p])
  {
    var p := n;
    while p < r.Length1
      invariant forall j :: n <= j < p && j < r.Length1 ==> !r[row, j]
      invariant forall q, j :: 0 <= q < r.Length0 && 0 <= j < r.Length1 && !(q == row && n <= j) ==>
        r[q, j] == old(r[q, j])
      decreases r.Length1 - p
    {
      r[row, p] := false;
      p := p + 1;
    }
  }

  /** A 64-pixel black row between two black rows. */
  function Black(n: nat): seq<bool> { seq(n, _ => true) }

  /**
   * The last pixel of a black 64-pixel row between black rows has all four
   * side neighbours but the right one black, so it stays black; the row
   * as written turns it white.
   */
  lemma LastPixelLost()
    ensures Smoothed(Some(Black(64)), Black(64), Some(Black(64)), 63)
    ensures 63 == WordBits * Words(64) - 1
  {
    assert At(Black(64), 62) && At(Black(64), 63);
  }

  /**
   * smooth_row with the missing final fix-up: after the last word, the
   * window holding its last two pixels and white beyond is smoothed once
   * more, which gives the last pixel of a row whose width is a multiple of
   * the word size its reference value.
   */
  method SmoothRow(r: array2<bool>, row: nat, u: Option<seq<bool>>, t: seq<bool>, d: Option<seq<bool>>, n: nat)
    requires row < r.Length0 && r.Length1 == RowBits(n)
    requires PaddedOpt(u, n) && PaddedRow(t, n) && PaddedOpt(d, n)
    modifies r
    ensures forall p :: 0 <= p < r.Length1 ==> r[row, p] == Smoothed(u, t, d, p)
    ensures forall q, p :: 0 <= q < r.Length0 && 0 <= p < r.Length1 && q != row ==> r[q, p] == old(r[q, p])
  {
    SmoothRowAsWritten(r, row, u, t, d, n);
    var len := Words(n);
    if n > 0 && WordBits * len == r.Length1 {
      var tail := TailBit(u, t, d, len);
      r[row, WordBits * len - 1] := tail;
    } else if n > 0 {
      LastWordFits(n);
      assert r.Length1 < WordBits * len;
    }
  }

  /**
   * The tail bit the window of word i yields: the last two pixels of word
   * i - 1 followed by the start of word i, smoothed at bit 1.
   */
  function TailBit(u: Option<seq<bool>>, t: seq<bool>, d: Option<seq<bool>>, i: nat): (tail: bool)
    ensures tail == Smoothed(u, t, d, WordBits * i - 1)
  {
    var ub, tb, db := [AtOpt(u, WordBits * i - 2), AtOpt(u, WordBits * i - 1)],
                      [At(t, WordBits * i - 2), At(t, WordBits * i - 1)],
                      [AtOpt(d, WordBits * i - 2), AtOpt(d, WordBits * i - 1)];
    WindowBits(u, t, d, i, ub, tb, db);
    GetSmooth(ub + Load(u, i)[..62], tb + Load(Some(t), i)[..62], db + Load(d, i)[..62])[1]
  }

  /** The pixels of row i of a bitmap. */
  function RowOf(b: array2<bool>, i: nat): (s: seq<bool>)
    reads b
    requires i < b.Length0
    ensures |s| == b.Length1 && forall j :: 0 <= j < b.Length1 ==> s[j] == b[i, j]
  {
    seq(b.Length1, j requires 0 <= j < b.Length1 reads b => b[i, j])
  }

  /** The row above i, absent for the first row. */
  function Above(rows: seq<seq<bool>>, i: nat): Option<seq<bool>>
    requires i < |rows|
  {
    if i == 0 then None else Some(rows[i - 1])
  }

  /** The row below i, absent for the last row. */
  function Below(rows: seq<seq<bool>>, i: nat): Option<seq<bool>>
    requires i < |rows|
  {
    if i + 1 < |rows| then Some(rows[i + 1]) else None
  }

  /** Pixel j of row i of the bitmap with rows `rows`, smoothed. */
  function SmoothedPixel(rows: seq<seq<bool>>, i: nat, j: int): bool
    requires i < |rows|
  {
    Smoothed(Above(rows, i), rows[i], Below(rows, i), j)
  }

  /** A bitmap of width w whose rows are packed with white padding. */
  predicate PaddedBitmap(b: array2<bool>, w: nat)
    reads b
  {
    b.Length1 == RowBits(w) && forall i, j :: 0 <= i < b.Length0 && w <= j < b.Length1 ==> !b[i, j]
  }

  /**
   * mdjvu_smooth: bitmaps of fewer than three rows are left alone;
   * otherwise every row is smoothed from the original rows around it into
   * a separate buffer, which is copied back at the end.
   */
  method SmoothBitmap(b: array2<bool>, w: nat)
    requires PaddedBitmap(b, w)
    modifies b
    ensures b.Length0 < 3 ==> forall i, j :: 0 <= i < b.Length0 && 0 <= j < b.Length1 ==> b[i, j] == old(b[i, j])
    ensures b.Length0 >= 3 ==> forall i, j :: 0 <= i < b.Length0 && 0 <= j < b.Length1 ==>
      b[i, j] == SmoothedPixel(old(Rows(b)), i, j)
  {
    var h := b.Length0;
    if h < 3 {
      return;
    }
    ghost var rows := Rows(b);
    var r := new bool[h, b.Length1];
    var i := 0;
    while i < h
      invariant i <= h && rows == Rows(b) && PaddedBitmap(b, w)
      invariant forall q, j :: 0 <= q < i && 0 <= j < r.Length1 ==> r[q, j] == SmoothedPixel(rows, q, j)
    {
      var up := if i == 0 then None else Some(RowOf(b, i - 1));
      var down := if i + 1 < h then Some(RowOf(b, i + 1)) else None;
      SmoothRow(r, i, up, RowOf(b, i), down, w);
      i := i + 1;
    }
    CopyBack(b, r);
  }

  /** The rows of a bitmap. */
  function Rows(b: array2<bool>): (rows: seq<seq<bool>>)
    reads b
    ensures |rows| == b.Length0 && forall i :: 0 <= i < b.Length0 ==> rows[i] == RowOf(b, i)
  {
    seq(b.Length0, i requires 0 <= i < b.Length0 reads b => RowOf(b, i))
  }

  /** The final memcpy of the smoothed buffer over the bitmap. */
  method CopyBack(b: array2<bool>, r: array2<bool>)
    requires b != r && b.Length0 == r.Length0 && b.Length1 == r.Length1
    modifies b
    ensures forall i, j :: 0 <= i < b.Length0 && 0 <= j < b.Length1 ==> b[i, j] == r[i, j]
  {
    var i := 0;
    while i < b.Length0
      invariant i <= b.Length0
      invariant forall q, j :: 0 <= q < i && 0 <= j < b.Length1 ==> b[q, j] == r[q, j]
    {
      var j := 0;
      while j < b.Length1
        invariant j <= b.Length1
        invariant forall q, k :: 0 <= q < i && 0 <= k < b.Length1 ==> b[q, k] == r[q, k]
        invariant forall k :: 0 <= k < j ==> b[i, k] == r[i, k]
      {
        b[i, j] := r[i, j];
        j := j + 1;
      }
      i := i + 1;
    }
  }
}
