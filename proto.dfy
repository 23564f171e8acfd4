/**
 * Prototype search of the JB2 encoder (src/jb2/proto.c): each glyph of a
 * page looks for the most similar earlier glyph (in the shared
 * dictionary, then on its own page) and records it either as a
 * substitution (a perfect match) or as a prototype to refine from.
 *
 * Rows are modelled as sequences of bits, leftmost pixel first; the
 * word-at-a-time loads and endian swaps the source uses to count differing
 * bits are an optimisation of the bit-level counts defined here. Bitmaps
 * and the per-glyph masses are values handed in by the caller.
 */
module Proto {

  newtype byte = x: int | 0 <= x < 256

  datatype Option<T> = None | Some(value: T)

  const THRESHOLD: int := 21
  const INT32_MAX: int := 0x7FFF_FFFF

  function Abs(x: int): nat { if x < 0 then -x else x }

  function Max(a: int, b: int): int { if a < b then b else a }

  function B(b: bool): nat { if b then 1 else 0 }

  // ---------------------------------------------------------------- popcount

  /** Number of one bits of k (the reference definition). */
  function Popcount(k: nat): nat {
    if k == 0 then 0 else k % 2 + Popcount(k / 2)
  }

  /** The four entries B2(n) adds to n: n, n + 1, n + 1, n + 2. */
  function Pair(x: nat): nat
    requires x < 4
  {
    if x == 0 then 0 else if x == 3 then 2 else 1
  }

  /**
   * lookuptable[k] as the nested B2/B4/B6 macros lay it out: each level
   * splits the index into a base-4 digit and adds that digit's Pair.
   */
  function LookupTable(k: nat): nat
    requires k < 256
  {
    Pair(k / 64) + Pair(k / 16 % 4) + Pair(k / 4 % 4) + Pair(k % 4)
  }

  /** Two halvings of the popcount recursion peel off one base-4 digit. */
  lemma PopcountDigit(k: nat)
    ensures Popcount(k) == Pair(k % 4) + Popcount(k / 4)
  {
    assert Popcount(k / 2) == (k / 2) % 2 + Popcount(k / 2 / 2);
    assert k / 2 / 2 == k / 4;
  }

  /** Every entry of the macro-generated table is the popcount of its index. */
  lemma {:induction false} LookupTableIsPopcount(k: nat)
    requires k < 256
    ensures LookupTable(k) == Popcount(k)
  {
    PopcountDigit(k);
    PopcountDigit(k / 4);
    PopcountDigit(k / 16);
    PopcountDigit(k / 64);
    assert k / 4 / 4 == k / 16 && k / 16 / 4 == k / 64 && k / 64 / 4 == 0;
    assert k / 4 % 4 == k / 4 % 4 && k / 16 % 4 == k / 16 % 4;
  }

  /** The eight bits of a byte, most significant first, as packed rows store pixels. */
  function ByteBits(k: nat, n: nat): (bits: seq<bool>)
    ensures |bits| == n
  {
    if n == 0 then [] else ByteBits(k / 2, n - 1) + [k % 2 == 1]
  }

  /** The bits of a sequence of bytes laid end to end. */
  function Unpack(c: seq<byte>): (bits: seq<bool>)
    ensures |bits| == 8 * |c|
  {
    if c == [] then [] else Unpack(c[..|c| - 1]) + ByteBits(c[|c| - 1] as nat, 8)
  }

  /** sum_s: the table entries of the bytes of a word, added up. */
  function SumS(c: seq<byte>): nat {
    if c == [] then 0 else SumS(c[..|c| - 1]) + LookupTable(c[|c| - 1] as nat)
  }

  // ---------------------------------------------------------------- bit rows

  /** Bit k of a row, 0 beyond its end (the zero padding of packed rows). */
  function At(s: seq<bool>, k: int): bool {
    0 <= k < |s| && s[k]
  }

  /** Number of set bits among the first n positions of s. */
  function Ones(s: seq<bool>, n: nat): (r: nat)
    ensures r <= n
    ensures r == 0 <==> forall k :: 0 <= k < n ==> !At(s, k)
  {
    if n == 0 then 0 else Ones(s, n - 1) + B(At(s, n - 1))
  }

  /** Number of positions among the first n where a and b differ. */
  function Diffs(a: seq<bool>, b: seq<bool>, n: nat): (r: nat)
    ensures r <= n
    ensures r == 0 <==> forall k :: 0 <= k < n ==> At(a, k) == At(b, k)
  {
    if n == 0 then 0 else Diffs(a, b, n - 1) + B(At(a, n - 1) != At(b, n - 1))
  }

  /** A row shifted right by `shift` pixels, zeros entering at the left. */
  function Shifted(a: seq<bool>, shift: nat): (r: seq<bool>)
    ensures |r| == |a| + shift
    ensures forall k :: At(r, k) == (shift <= k && At(a, k - shift))
  {
    seq(shift, _ => false) + a
  }

  /** diff_bits_to_zero: the number of black pixels of a row. */
  function DiffBitsToZero(a: seq<bool>): (r: nat)
    ensures r <= |a|
    ensures r == 0 <==> forall k :: 0 <= k < |a| ==> !a[k]
  {
    assert forall k :: 0 <= k < |a| ==> At(a, k) == a[k];
    Ones(a, |a|)
  }

  /** diff_bits_no_shift: the number of pixels where two zero-padded rows differ. */
  function DiffBitsNoShift(a: seq<bool>, b: seq<bool>): (r: nat)
    ensures r <= Max(|a|, |b|)
    ensures r == 0 <==> forall k :: 0 <= k < Max(|a|, |b|) ==> At(a, k) == At(b, k)
  {
    Diffs(a, b, Max(|a|, |b|))
  }

  /** diff_bits_shifted: as diff_bits_no_shift with row a moved `shift` pixels right. */
  function DiffBitsShifted(a: seq<bool>, b: seq<bool>, shift: nat): (r: nat)
    ensures r <= Max(|a| + shift, |b|)
    ensures r == 0 <==> forall k :: 0 <= k < Max(|a| + shift, |b|) ==> At(b, k) == (shift <= k && At(a, k - shift))
  {
    DiffBitsNoShift(Shifted(a, shift), b)
  }

  /** Counting differences against an absent row counts the black pixels. */
  lemma {:induction false} DiffsAgainstEmpty(a: seq<bool>, n: nat)
    ensures Diffs(a, [], n) == Ones(a, n)
  {
    if n > 0 {
      DiffsAgainstEmpty(a, n - 1);
    }
  }

  function Pow2(n: nat): (p: nat)
    ensures p >= 1
  {
    if n == 0 then 1 else 2 * Pow2(n - 1)
  }

  lemma ByteRange()
    ensures Pow2(8) == 256
  {
    assert Pow2(4) == 16;
  }

  /** The n low bits of k, laid out most significant first, hold the popcount of k. */
  lemma {:induction false} ByteBitsCount(k: nat, n: nat)
    requires k < Pow2(n)
    ensures Ones(ByteBits(k, n), n) == Popcount(k)
  {
    if n > 0 {
      var front := ByteBits(k / 2, n - 1);
      assert ByteBits(k, n) == front + [k % 2 == 1];
      OnesPrefix(front, [k % 2 == 1], n - 1);
      ByteBitsCount(k / 2, n - 1);
    }
  }

  /** Ones over the first n positions ignores what follows them. */
  lemma {:induction false} OnesPrefix(s: seq<bool>, t: seq<bool>, n: nat)
    requires n == |s|
    ensures Ones(s + t, n + |t|) == Ones(s, n) + Ones(t, |t|)
    decreases |t|
  {
    if |t| > 0 {
      var t' := t[..|t| - 1];
      assert s + t == (s + t') + [t[|t| - 1]];
      OnesPrefix(s, t', n);
      OnesSame(s + t', s + t, n + |t'|);
      OnesSame(t', t, |t'|);
    } else {
      assert s + t == s;
    }
  }

  /** Ones over a prefix only depends on the bits in that prefix. */
  lemma {:induction false} OnesSame(s: seq<bool>, t: seq<bool>, n: nat)
    requires forall k :: 0 <= k < n ==> At(s, k) == At(t, k)
    ensures Ones(s, n) == Ones(t, n)
  {
    if n > 0 {
      OnesSame(s, t, n - 1);
    }
  }

  /** sum_s counts the one bits of the word its bytes form, whatever their order. */
  lemma {:induction false} SumSCountsBits(c: seq<byte>)
    ensures SumS(c) == Ones(Unpack(c), 8 * |c|)
  {
    if c != [] {
      var front := c[..|c| - 1];
      var last := c[|c| - 1] as nat;
      SumSCountsBits(front);
      OnesPrefix(Unpack(front), ByteBits(last, 8), 8 * |front|);
      ByteBitsCount(last, 8);
      ByteRange();
      LookupTableIsPopcount(last);
    }
  }

  // ---------------------------------------------------------------- bitmaps

  /** A packed bitmap: its width and its rows of bits, top row first. */
  datatype Bitmap = Bitmap(width: nat, rows: seq<seq<bool>>)

  ghost predicate Valid(b: Bitmap) {
    forall y :: 0 <= y < |b.rows| ==> |b.rows[y]| == b.width
  }

  /** mdjvu_bitmap_access_packed_row, or NULL outside the bitmap. */
  function RowOf(b: Bitmap, y: int): Option<seq<bool>> {
    if 0 <= y < |b.rows| then Some(b.rows[y]) else None
  }

  /** Widths and heights differ by at most 2: otherwise diff gives up. */
  predicate Close(image: Bitmap, prototype: Bitmap) {
    Abs(image.width - prototype.width) <= 2 && Abs(|image.rows| - |prototype.rows|) <= 2
  }

  /**
   * The alignment of diff: the horizontal shift centres the images with
   * the centre favouring the right, the vertical one centres the rows.
   * When the sizes are close the horizontal shift is at most one pixel
   * either way, so only one operand is ever shifted, by one pixel.
   */
  function ShiftX(image: Bitmap, prototype: Bitmap): (sx: int)
    ensures Close(image, prototype) ==> -1 <= sx <= 1
  {
    (prototype.width - prototype.width / 2) - (image.width - image.width / 2)
  }

  function ShiftY(image: Bitmap, prototype: Bitmap): (sy: int)
    ensures Close(image, prototype) ==> -1 <= sy <= 1
  {
    |prototype.rows| / 2 - |image.rows| / 2
  }

  /**
   * What prototype row i adds to the difference: the image row aligned
   * with it and the prototype row, either of which may be absent; absent
   * on both sides adds nothing.
   */
  function RowDiff(image: Bitmap, prototype: Bitmap, i: int): nat {
    var sx := ShiftX(image, prototype);
    var ir := RowOf(image, i - ShiftY(image, prototype));
    var pr := RowOf(prototype, i);
    if ir.None? && pr.None? then 0
    else if pr.None? then DiffBitsToZero(ir.value)
    else if ir.None? then DiffBitsToZero(pr.value)
    else if sx == 0 then DiffBitsNoShift(ir.value, pr.value)
    else if sx < 0 then DiffBitsShifted(pr.value, ir.value, -sx)
    else DiffBitsShifted(ir.value, pr.value, sx)
  }

  /** The rows diff scans: prototype rows -1 through its height. */
  function ScanRows(prototype: Bitmap): nat {
    |prototype.rows| + 2
  }

  /** The row differences in scan order: entry k is prototype row k - 1. */
  function RowDiffs(image: Bitmap, prototype: Bitmap): (ds: seq<nat>)
    ensures |ds| == ScanRows(prototype)
  {
    seq(ScanRows(prototype), k => RowDiff(image, prototype, k - 1))
  }

  /** The sum of the first n entries. */
  function Prefix(ds: seq<nat>, n: nat): nat
    requires n <= |ds|
  {
    if n == 0 then 0 else Prefix(ds, n - 1) + ds[n - 1]
  }

  /** The full difference of two bitmaps: INT32_MAX when their sizes are not close. */
  function Score(image: Bitmap, prototype: Bitmap): int {
    if Close(image, prototype) then Prefix(RowDiffs(image, prototype), ScanRows(prototype)) else INT32_MAX
  }

  /** What a scan with early exit returns from entry n on: the first running sum over the ceiling, else the total. */
  function StopFrom(ds: seq<nat>, ceiling: int, n: nat): int
    requires n <= |ds|
    decreases |ds| - n
  {
    if n == |ds| then Prefix(ds, n)
    else if Prefix(ds, n + 1) > ceiling then Prefix(ds, n + 1)
    else StopFrom(ds, ceiling, n + 1)
  }

  /** The value diff returns. */
  function DiffResult(image: Bitmap, prototype: Bitmap, ceiling: int): int {
    if Close(image, prototype) then StopFrom(RowDiffs(image, prototype), ceiling, 0) else INT32_MAX
  }

  /** Running sums never decrease. */
  lemma {:induction false} PrefixMonotone(ds: seq<nat>, m: nat, n: nat)
    requires m <= n <= |ds|
    ensures Prefix(ds, m) <= Prefix(ds, n)
    decreases n - m
  {
    if m < n {
      PrefixMonotone(ds, m, n - 1);
    }
  }

  lemma {:induction false} StopFromFacts(ds: seq<nat>, ceiling: int, n: nat)
    requires n <= |ds|
    ensures var r := StopFrom(ds, ceiling, n);
      Prefix(ds, n) <= r <= Prefix(ds, |ds|) &&
      (r <= ceiling ==> r == Prefix(ds, |ds|)) &&
      (r > ceiling <==> Prefix(ds, |ds|) > ceiling)
    decreases |ds| - n
  {
    if n < |ds| {
      PrefixMonotone(ds, n + 1, |ds|);
      if Prefix(ds, n + 1) <= ceiling {
        StopFromFacts(ds, ceiling, n + 1);
      }
    }
  }

  /**
   * What diff's early exit preserves: its result never exceeds the full
   * difference, a result within the ceiling is the full difference, and a
   * result over the ceiling means the full difference is over it too.
   */
  lemma DiffResultBounds(image: Bitmap, prototype: Bitmap, ceiling: int)
    ensures var r := DiffResult(image, prototype, ceiling);
      0 <= r <= Score(image, prototype) &&
      (r <= ceiling ==> r == Score(image, prototype)) &&
      (r > ceiling <==> Score(image, prototype) > ceiling)
  {
    if Close(image, prototype) {
      StopFromFacts(RowDiffs(image, prototype), ceiling, 0);
    }
  }

  /** A well-formed bitmap differs from itself nowhere: diff(X, X, c) is 0. */
  lemma SelfDiffZero(x: Bitmap, ceiling: int)
    requires Valid(x)
    ensures Score(x, x) == 0
    ensures DiffResult(x, x, ceiling) == 0
  {
    var ds := RowDiffs(x, x);
    forall k | 0 <= k < |ds|
      ensures ds[k] == 0
    {
      assert ShiftX(x, x) == 0 && ShiftY(x, x) == 0;
      var r := RowOf(x, k - 1);
      if r.Some? {
        assert DiffBitsNoShift(r.value, r.value) == 0;
      }
    }
    PrefixZero(ds, |ds|);
    DiffResultBounds(x, x, ceiling);
  }

  lemma {:induction false} PrefixZero(ds: seq<nat>, n: nat)
    requires n <= |ds|
    requires forall k :: 0 <= k < |ds| ==> ds[k] == 0
    ensures Prefix(ds, n) == 0
  {
    if n > 0 {
      PrefixZero(ds, n - 1);
    }
  }

  /**
   * diff: the aligned row differences summed over prototype rows -1 to
   * its height, returning as soon as the running sum exceeds the ceiling;
   * INT32_MAX when the sizes differ by more than 2.
   */
  method Diff(image: Bitmap, prototype: Bitmap, ceiling: int) returns (s: int)
    ensures s == DiffResult(image, prototype, ceiling)
  {
    if Abs(image.width - prototype.width) > 2 {
      return INT32_MAX;
    }
    if Abs(|image.rows| - |prototype.rows|) > 2 {
      return INT32_MAX;
    }
    ghost var ds := RowDiffs(image, prototype);
    s := 0;
    var ph := |prototype.rows|;
    var i := -1;
    while i <= ph
      invariant -1 <= i <= ph + 1
      invariant s == Prefix(ds, i + 1)
      invariant StopFrom(ds, ceiling, i + 1) == StopFrom(ds, ceiling, 0)
      decreases ph - i
    {
      s := s + RowDiff(image, prototype, i);
      assert ds[i + 1] == RowDiff(image, prototype, i);
      if s > ceiling {
        return s;
      }
      i := i + 1;
    }
  }

  // ---------------------------------------------------------------- search

  /** A page or dictionary image: its glyph bitmaps and their masses. */
  datatype Image = Image(bitmaps: seq<Bitmap>, masses: seq<int>)

  ghost predicate ImageValid(img: Image) {
    |img.masses| == |img.bitmaps| && forall j :: 0 <= j < |img.bitmaps| ==> Valid(img.bitmaps[j])
  }

  /** A glyph a match points at: in the dictionary or earlier on the page. */
  datatype Ref = InDict(j: nat) | OnPage(j: nat)

  /** What find_prototypes records for a glyph. */
  datatype Link = Prototype(p: Option<Ref>) | Substitution(s: Option<Ref>)

  function RefTo(inDict: bool, j: nat): Ref {
    if inDict then InDict(j) else OnPage(j)
  }

  /** The starting bound of the search: 21% of the glyph's area. */
  function MaxScore(b: Bitmap): int {
    b.width * |b.rows| * THRESHOLD / 100
  }

  /**
   * The candidate scan of find_prototypes over glyphs j .. count - 1 of
   * img: a candidate whose mass differs by more than the best score is
   * skipped, a strictly better score replaces the best match, and a score
   * of 0 ends the scan.
   */
  function Scan(cur: Bitmap, mass: int, img: Image, inDict: bool, j: nat, count: nat, score: int, best: Option<Ref>)
    : (int, Option<Ref>)
    requires count <= |img.bitmaps| && count <= |img.masses|
    decreases count - j
  {
    if j >= count then (score, best)
    else if Abs(mass - img.masses[j]) > score then Scan(cur, mass, img, inDict, j + 1, count, score, best)
    else
      var s := DiffResult(cur, img.bitmaps[j], score);
      if s < score then
        if s == 0 then (0, Some(RefTo(inDict, j)))
        else Scan(cur, mass, img, inDict, j + 1, count, s, Some(RefTo(inDict, j)))
      else Scan(cur, mass, img, inDict, j + 1, count, score, best)
  }

  /**
   * The scan never raises the score; when it lowers it, the new best
   * match is one of the scanned glyphs and the score is that glyph's full
   * difference; otherwise the best match is unchanged. No scanned glyph
   * whose mass is close enough to have been compared beats the result.
   */
  lemma {:induction false} ScanFacts(cur: Bitmap, mass: int, img: Image, inDict: bool, j: nat, count: nat,
                                     score: int, best: Option<Ref>)
    requires count <= |img.bitmaps| && count <= |img.masses|
    ensures var (s, b) := Scan(cur, mass, img, inDict, j, count, score, best);
      s <= score &&
      (s < score ==> exists k :: j <= k < count && b == Some(RefTo(inDict, k)) && s == Score(cur, img.bitmaps[k])) &&
      (s == score ==> b == best) &&
      (forall k :: j <= k < count ==> Abs(mass - img.masses[k]) > s || Score(cur, img.bitmaps[k]) >= s)
    decreases count - j
  {
    if j < count {
      var d := DiffResult(cur, img.bitmaps[j], score);
      DiffResultBounds(cur, img.bitmaps[j], score);
      if Abs(mass - img.masses[j]) > score {
        ScanFacts(cur, mass, img, inDict, j + 1, count, score, best);
      } else if d < score {
        if d == 0 {
          forall k | j <= k < count
            ensures Score(cur, img.bitmaps[k]) >= 0
          {
            DiffResultBounds(cur, img.bitmaps[k], 0);
          }
        } else {
          ScanFacts(cur, mass, img, inDict, j + 1, count, d, Some(RefTo(inDict, j)));
          var (s, b) := Scan(cur, mass, img, inDict, j + 1, count, d, Some(RefTo(inDict, j)));
          if s == d {
            assert b == Some(RefTo(inDict, j)) && s == Score(cur, img.bitmaps[j]);
          }
        }
      } else {
        ScanFacts(cur, mass, img, inDict, j + 1, count, score, best);
      }
    }
  }

  /**
   * The candidate loop of find_prototypes over glyphs 0 .. count - 1 of
   * img, with its early exit on a perfect match.
   */
  method ScanImage(cur: Bitmap, mass: int, img: Image, inDict: bool, count: nat, score0: int, best0: Option<Ref>)
    returns (score: int, best: Option<Ref>)
    requires count <= |img.bitmaps| && count <= |img.masses|
    ensures (score, best) == Scan(cur, mass, img, inDict, 0, count, score0, best0)
  {
    score, best := score0, best0;
    var j := 0;
    while j < count
      invariant 0 <= j <= count
      invariant Scan(cur, mass, img, inDict, j, count, score, best) == Scan(cur, mass, img, inDict, 0, count, score0, best0)
    {
      if Abs(mass - img.masses[j]) <= score {
        var s := Diff(cur, img.bitmaps[j], score);
        if s < score {
          score, best := s, Some(RefTo(inDict, j));
          if s == 0 {
            break;
          }
        }
      }
      j := j + 1;
    }
  }

  /** The best score and match after the dictionary scan. */
  function DictPhase(dict: Option<Image>, cur: Bitmap, mass: int): (int, Option<Ref>)
    requires dict.Some? ==> |dict.value.masses| == |dict.value.bitmaps|
  {
    if dict.Some? then Scan(cur, mass, dict.value, true, 0, |dict.value.bitmaps|, MaxScore(cur), None)
    else (MaxScore(cur), None)
  }

  /** The best score and match after the page scan over glyphs 0 .. i - 1. */
  function PagePhase(dict: Option<Image>, img: Image, i: nat): (int, Option<Ref>)
    requires dict.Some? ==> |dict.value.masses| == |dict.value.bitmaps|
    requires i < |img.bitmaps| && |img.masses| == |img.bitmaps|
  {
    var (s, b) := DictPhase(dict, img.bitmaps[i], img.masses[i]);
    if s != 0 then Scan(img.bitmaps[i], img.masses[i], img, false, 0, i, s, b) else (s, b)
  }

  /** What find_prototypes records for glyph i. */
  function Decide(dict: Option<Image>, img: Image, i: nat): Link
    requires dict.Some? ==> |dict.value.masses| == |dict.value.bitmaps|
    requires i < |img.bitmaps| && |img.masses| == |img.bitmaps|
  {
    var (s, b) := PagePhase(dict, img, i);
    if s != 0 then Prototype(b) else Substitution(b)
  }

  /** The glyph a reference points at. */
  function Target(dict: Option<Image>, img: Image, r: Ref): Option<Bitmap> {
    match r
    case InDict(j) => if dict.Some? && j < |dict.value.bitmaps| then Some(dict.value.bitmaps[j]) else None
    case OnPage(j) => if j < |img.bitmaps| then Some(img.bitmaps[j]) else None
  }

  /**
   * What the record for glyph i means: a reference points into the
   * dictionary or at an earlier glyph of the page, and its full difference
   * from glyph i is the recorded score; a substitution is a perfect match,
   * or no match at all when the starting bound is already 0; a prototype's
   * difference lies strictly between 0 and the starting bound.
   */
  lemma DecideFacts(dict: Option<Image>, img: Image, i: nat)
    requires dict.Some? ==> |dict.value.masses| == |dict.value.bitmaps|
    requires i < |img.bitmaps| && |img.masses| == |img.bitmaps|
    ensures var (s, b) := PagePhase(dict, img, i);
      var cur := img.bitmaps[i];
      s <= MaxScore(cur) &&
      (b.None? <==> s == MaxScore(cur)) &&
      (b.Some? ==> Target(dict, img, b.value).Some? && Score(cur, Target(dict, img, b.value).value) == s) &&
      (b.Some? && b.value.OnPage? ==> b.value.j < i)
    ensures Decide(dict, img, i).Substitution? ==> (Decide(dict, img, i).s.None? <==> MaxScore(img.bitmaps[i]) == 0)
    ensures Decide(dict, img, i).Prototype? && Decide(dict, img, i).p.Some? ==>
      0 < Score(img.bitmaps[i], Target(dict, img, Decide(dict, img, i).p.value).value) < MaxScore(img.bitmaps[i])
  {
    var cur, mass := img.bitmaps[i], img.masses[i];
    if dict.Some? {
      ScanFacts(cur, mass, dict.value, true, 0, |dict.value.bitmaps|, MaxScore(cur), None);
    }
    var (s1, b1) := DictPhase(dict, cur, mass);
    if s1 != 0 {
      ScanFacts(cur, mass, img, false, 0, i, s1, b1);
    }
  }

  /**
   * The search is a best match: no glyph of the dictionary, nor (unless
   * the dictionary already gave a perfect match) any earlier glyph of the
   * page, has a mass within the final score and a smaller difference.
   */
  lemma DecideIsBest(dict: Option<Image>, img: Image, i: nat)
    requires dict.Some? ==> |dict.value.masses| == |dict.value.bitmaps|
    requires i < |img.bitmaps| && |img.masses| == |img.bitmaps|
    ensures var (s, _) := PagePhase(dict, img, i);
      var cur, mass := img.bitmaps[i], img.masses[i];
      (dict.Some? ==> forall k :: 0 <= k < |dict.value.bitmaps| ==>
        Abs(mass - dict.value.masses[k]) > s || Score(cur, dict.value.bitmaps[k]) >= s) &&
      (DictPhase(dict, cur, mass).0 != 0 ==> forall k :: 0 <= k < i ==>
        Abs(mass - img.masses[k]) > s || Score(cur, img.bitmaps[k]) >= s)
  {
    var cur, mass := img.bitmaps[i], img.masses[i];
    if dict.Some? {
      ScanFacts(cur, mass, dict.value, true, 0, |dict.value.bitmaps|, MaxScore(cur), None);
    }
    var (s1, b1) := DictPhase(dict, cur, mass);
    if s1 != 0 {
      ScanFacts(cur, mass, img, false, 0, i, s1, b1);
    }
  }

  /**
   * find_prototypes: for every glyph of the page, in order, the dictionary
   * scan and then (unless it found a perfect match) the scan of the
   * earlier glyphs of the page, and the record the best score selects.
   */
  method FindPrototypes(dict: Option<Image>, img: Image) returns (links: seq<Link>)
    requires dict.Some? ==> |dict.value.masses| == |dict.value.bitmaps|
    requires |img.masses| == |img.bitmaps|
    ensures |links| == |img.bitmaps|
    ensures forall i :: 0 <= i < |links| ==> links[i] == Decide(dict, img, i)
  {
    var d := if dict.Some? then |dict.value.bitmaps| else 0;
    var n := |img.bitmaps|;
    links := [];
    var i := 0;
    while i < n
      invariant 0 <= i <= n && |links| == i
      invariant forall k :: 0 <= k < i ==> links[k] == Decide(dict, img, k)
    {
      var current, mass := img.bitmaps[i], img.masses[i];
      var bestScore, bestMatch := MaxScore(current), None;
      if dict.Some? {
        bestScore, bestMatch := ScanImage(current, mass, dict.value, true, d, bestScore, bestMatch);
      }
      if bestScore != 0 {
        bestScore, bestMatch := ScanImage(current, mass, img, false, i, bestScore, bestMatch);
      }
      links := links + [if bestScore != 0 then Prototype(bestMatch) else Substitution(bestMatch)];
      i := i + 1;
    }
  }

  /** mdjvu_multipage_find_prototypes: every page searched against the shared dictionary, in order. */
  method MultipageFindPrototypes(dict: Image, pages: seq<Image>) returns (links: seq<seq<Link>>)
    requires |dict.masses| == |dict.bitmaps|
    requires forall p :: 0 <= p < |pages| ==> |pages[p].masses| == |pages[p].bitmaps|
    ensures |links| == |pages|
    ensures forall p :: 0 <= p < |pages| ==>
      |links[p]| == |pages[p].bitmaps| && forall i :: 0 <= i < |links[p]| ==> links[p][i] == Decide(Some(dict), pages[p], i)
  {
    links := [];
    var p := 0;
    while p < |pages|
      invariant 0 <= p <= |pages| && |links| == p
      invariant forall q :: 0 <= q < p ==>
        |links[q]| == |pages[q].bitmaps| && forall i :: 0 <= i < |links[q]| ==> links[q][i] == Decide(Some(dict), pages[q], i)
    {
      var page := FindPrototypes(Some(dict), pages[p]);
      links := links + [page];
      p := p + 1;
    }
  }
}
