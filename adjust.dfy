/**
 * Baseline adjustment of substituted blits
 * (minidjvu/alg/adjust/adjust.c): when a blit's bitmap is replaced by
 * its substitution, the blit is moved so that the substitute sits where
 * the original did, centred horizontally and with the baselines aligned
 * where that is plausible.
 *
 * Baselines are measured in quarter pixels. A bitmap is given by its width
 * and its unpacked rows (top row first, true for black); the image's
 * bitmaps, substitutions and blits are the fields of the class Image.
 */
module Adjust {

  datatype Bitmap = Bitmap(width: nat, rows: seq<seq<bool>>)

  ghost predicate WellFormed(b: Bitmap) {
    forall y :: 0 <= y < |b.rows| ==> |b.rows[y]| == b.width
  }

  function Abs(x: int): nat { if x < 0 then -x else x }

  /** C's `/` on int, which truncates toward zero. */
  function CDiv(a: int, d: int): (q: int)
    requires d > 0
    ensures Abs(q) == Abs(a) / d
    ensures a >= 0 ==> q >= 0
    ensures a <= 0 ==> q <= 0
  {
    if a >= 0 then a / d else -((-a) / d)
  }

  // ---------------------------------------------------------------- row mass

  /** Index of the first black pixel of a row, or its length when it has none. */
  function FirstBlack(row: seq<bool>): (j: nat)
    ensures j <= |row|
    ensures forall k :: 0 <= k < j ==> !row[k]
    ensures j < |row| ==> row[j]
  {
    if row == [] then 0 else if row[0] then 0 else 1 + FirstBlack(row[1..])
  }

  /** One past the last black pixel of a row, or 0 when it has none. */
  function EndBlack(row: seq<bool>): (e: nat)
    ensures e <= |row|
    ensures forall k :: e <= k < |row| ==> !row[k]
    ensures e > 0 ==> row[e - 1]
  {
    if row == [] then 0 else if row[|row| - 1] then |row| else EndBlack(row[..|row| - 1])
  }

  /** The mass of a row: the span from its first to its last black pixel, 0 for a white row. */
  function Span(row: seq<bool>): (m: nat)
    ensures m <= |row|
  {
    if FirstBlack(row) == |row| then 0 else EndBlack(row) - FirstBlack(row)
  }

  /** A row's span is empty exactly when the row is white, and otherwise runs between two black pixels. */
  lemma SpanMeaning(row: seq<bool>)
    ensures Span(row) == 0 <==> forall k :: 0 <= k < |row| ==> !row[k]
    ensures Span(row) > 0 ==> row[FirstBlack(row)] && row[FirstBlack(row) + Span(row) - 1]
    ensures forall k :: 0 <= k < |row| && !(FirstBlack(row) <= k < FirstBlack(row) + Span(row)) ==> !row[k]
  {
    var j := FirstBlack(row);
    if j < |row| {
      assert row[j];
      assert EndBlack(row) > j;
    }
  }

  /**
   * The inner loops of compute_baseline for one row: j is the first black
   * pixel (or the width) and m the span up to the last black pixel.
   */
  method RowSpan(row: seq<bool>) returns (j: nat, m: nat)
    ensures j == FirstBlack(row) && m == Span(row)
  {
    var w := |row|;
    j := 0;
    while j < w
      invariant 0 <= j <= w
      invariant forall k :: 0 <= k < j ==> !row[k]
    {
      if row[j] {
        break;
      }
      j := j + 1;
    }
    assert j == FirstBlack(row) by {
      FirstBlackUnique(row, j);
    }
    m := w - j;
    while m > 0
      invariant 0 <= m <= w - j
      invariant forall k :: j + m <= k < w ==> !row[k]
    {
      if row[j + m - 1] {
        break;
      }
      m := m - 1;
    }
    EndBlackUnique(row, j + m, j);
  }

  /** The first black pixel is determined by the white pixels before it. */
  lemma FirstBlackUnique(row: seq<bool>, j: nat)
    requires j <= |row|
    requires forall k :: 0 <= k < j ==> !row[k]
    requires j < |row| ==> row[j]
    ensures j == FirstBlack(row)
  {
  }

  /** The end of the black pixels is determined by the white pixels after it. */
  lemma EndBlackUnique(row: seq<bool>, e: nat, j: nat)
    requires j <= e <= |row| && j == FirstBlack(row)
    requires forall k :: e <= k < |row| ==> !row[k]
    requires e > j ==> row[e - 1]
    ensures e - j == Span(row)
  {
  }

  // ---------------------------------------------------------------- baseline

  /** The masses of a bitmap's rows, bottom row first. */
  function Masses(b: Bitmap): (mass: seq<nat>)
    ensures |mass| == |b.rows|
  {
    seq(|b.rows|, k requires 0 <= k < |b.rows| => Span(b.rows[|b.rows| - 1 - k]))
  }

  /** The sum of entries k and later. */
  function SumFrom(s: seq<nat>, k: nat): nat
    decreases |s| - k
  {
    if k >= |s| then 0 else s[k] + SumFrom(s, k + 1)
  }

  /** The mass covered by the first i quarter-rows, each row counted four times. */
  function QSum(mass: seq<nat>, i: nat): nat
    requires i <= 4 * |mass|
  {
    if i == 0 then 0 else QSum(mass, i - 1) + mass[(i - 1) / 4]
  }

  /** Whole rows: the first 4n quarter-rows cover four times the first n masses. */
  lemma {:induction false} QSumRows(mass: seq<nat>, n: nat)
    requires n <= |mass|
    ensures QSum(mass, 4 * n) == 4 * (SumFrom(mass, 0) - SumFrom(mass, n))
  {
    if n > 0 {
      QSumRows(mass, n - 1);
      var q := 4 * (n - 1);
      assert q / 4 == n - 1 && (q + 1) / 4 == n - 1 && (q + 2) / 4 == n - 1 && (q + 3) / 4 == n - 1;
      assert QSum(mass, q + 1) == QSum(mass, q) + mass[n - 1];
      assert QSum(mass, q + 2) == QSum(mass, q + 1) + mass[n - 1];
      assert QSum(mass, q + 3) == QSum(mass, q + 2) + mass[n - 1];
      assert QSum(mass, q + 4) == QSum(mass, q + 3) + mass[n - 1];
      SumFromStep(mass, n - 1);
    }
  }

  lemma {:induction false} SumFromStep(s: seq<nat>, k: nat)
    requires k < |s|
    ensures SumFrom(s, 0) - SumFrom(s, k) + s[k] == SumFrom(s, 0) - SumFrom(s, k + 1)
  {
  }

  /** The first quarter-row index from i on where the covered mass reaches target, at most 4 * |mass|. */
  function FirstReach(mass: seq<nat>, target: int, i: nat): (r: nat)
    requires i <= 4 * |mass|
    ensures i <= r <= 4 * |mass|
    decreases 4 * |mass| - i
  {
    if i == 4 * |mass| || 6 * QSum(mass, i) >= target then i else FirstReach(mass, target, i + 1)
  }

  /**
   * The baseline loop stops at the first quarter-row where two thirds of
   * the bitmap's mass lies below: it reaches the target there and not
   * before, and it never runs past the last row.
   */
  lemma {:induction false} FirstReachMeaning(mass: seq<nat>)
    ensures var total := SumFrom(mass, 0);
      var i := FirstReach(mass, 4 * total, 0);
      6 * QSum(mass, i) >= 4 * total && forall k :: 0 <= k < i ==> 6 * QSum(mass, k) < 4 * total
  {
    var total := SumFrom(mass, 0);
    QSumRows(mass, |mass|);
    FirstReachFrom(mass, 4 * total, 0);
  }

  lemma {:induction false} FirstReachFrom(mass: seq<nat>, target: int, i: nat)
    requires i <= 4 * |mass|
    requires 6 * QSum(mass, 4 * |mass|) >= target
    requires forall k :: 0 <= k < i ==> 6 * QSum(mass, k) < target
    ensures var r := FirstReach(mass, target, i);
      6 * QSum(mass, r) >= target && forall k :: 0 <= k < r ==> 6 * QSum(mass, k) < target
    decreases 4 * |mass| - i
  {
    if i < 4 * |mass| && 6 * QSum(mass, i) < target {
      FirstReachFrom(mass, target, i + 1);
    }
  }

  /** compute_baseline as a value: the stopping quarter-row counted up from the bottom row. */
  function BaselineOf(b: Bitmap): int {
    var mass := Masses(b);
    4 * (|b.rows| - 1) - FirstReach(mass, 4 * SumFrom(mass, 0), 0)
  }

  /**
   * The first loop of compute_baseline: the mass of every row, stored
   * bottom row first, and their total.
   */
  method RowMasses(b: Bitmap) returns (mass: array<nat>, tm: nat)
    ensures mass[..] == Masses(b)
    ensures tm == SumFrom(Masses(b), 0)
  {
    var h := |b.rows|;
    ghost var masses := Masses(b);
    mass := new nat[h];
    tm := 0;
    var i := 0;
    while i < h
      invariant 0 <= i <= h
      invariant forall k :: h - i <= k < h ==> mass[k] == masses[k]
      invariant tm == SumFrom(masses, h - i)
    {
      var j, m := RowSpan(b.rows[i]);
      mass[h - i - 1] := m;
      tm := tm + m;
      i := i + 1;
    }
  }

  /**
   * compute_baseline: quarter rows are accumulated from the bottom until
   * two thirds of the total mass is covered.
   */
  method ComputeBaseline(b: Bitmap) returns (baseline: int)
    ensures baseline == BaselineOf(b)
    ensures -4 <= baseline <= 4 * (|b.rows| - 1)
  {
    var h := |b.rows|;
    var mass, tm := RowMasses(b);
    ghost var masses := mass[..];
    QSumRows(masses, h);
    var m := 0;
    var i := 0;
    while m * 6 < tm * 4
      invariant 0 <= i <= 4 * h
      invariant m == QSum(masses, i)
      invariant FirstReach(masses, 4 * tm, i) == FirstReach(masses, 4 * tm, 0)
      decreases 4 * h - i
    {
      m := m + mass[i / 4];
      i := i + 1;
    }
    baseline := 4 * (h - 1) - i;
  }

  /**
   * The refined vertical shift: the quarter-pixel baseline difference
   * divided by 4 in C arithmetic, which rounds half away from zero.
   */
  function RoundQuarter(a: int): (r: int)
    ensures -2 <= a - 4 * r <= 2
    ensures a - 4 * r == 2 ==> a < 0
    ensures a - 4 * r == -2 ==> a > 0
  {
    if a < 0 then CDiv(-(2 - a), 4) else CDiv(2 + a, 4)
  }

  /** Rounding treats both signs alike. */
  lemma RoundQuarterOdd(a: int)
    ensures RoundQuarter(-a) == -RoundQuarter(a)
  {
  }

  // ---------------------------------------------------------------- mdjvu_adjust

  /**
   * The baseline array of mdjvu_adjust: computed for every bitmap that may
   * be substituted; the others' entries are never written, so they hold
   * whatever the allocation held (junk).
   */
  function Baselines(bitmaps: seq<Bitmap>, noSubstitution: seq<bool>, junk: int -> int): (bl: seq<int>)
    requires |noSubstitution| == |bitmaps|
    ensures |bl| == |bitmaps|
  {
    seq(|bitmaps|, k requires 0 <= k < |bitmaps| => if noSubstitution[k] then junk(k) else BaselineOf(bitmaps[k]))
  }

  /** Blit k's bitmap is replaced by a different one. */
  predicate Replaced(substitution: seq<nat>, blitBitmap: seq<nat>, k: nat)
    requires forall i :: 0 <= i < |blitBitmap| ==> blitBitmap[i] < |substitution|
  {
    k < |blitBitmap| && substitution[blitBitmap[k]] != blitBitmap[k]
  }

  /**
   * The vertical shift for bitmap bm replaced by s, given the quarter-pixel
   * baseline difference: the centring shift, unless the rounded difference
   * lies within 1 + w/16 of it, in which case the rounded difference wins.
   */
  function Vertical(bitmaps: seq<Bitmap>, bm: nat, s: nat, diff: int): (dy: int)
    requires bm < |bitmaps| && s < |bitmaps|
    ensures var centred := CDiv(|bitmaps[bm].rows| - |bitmaps[s].rows|, 2);
      var aligned := RoundQuarter(diff);
      (dy == aligned || dy == centred) &&
      (Abs(aligned - centred) <= 1 + bitmaps[bm].width / 16 <==> dy == aligned)
  {
    var centred := CDiv(|bitmaps[bm].rows| - |bitmaps[s].rows|, 2);
    var aligned := RoundQuarter(diff);
    if Abs(aligned - centred) <= 1 + bitmaps[bm].width / 16 then aligned else centred
  }

  /** The horizontal shift owed to bitmap bm: 0 unless it is replaced, then half the width difference. */
  function BitmapXShift(bitmaps: seq<Bitmap>, substitution: seq<nat>, bm: nat): (dx: int)
    requires |substitution| == |bitmaps| && bm < |bitmaps|
    requires forall i :: 0 <= i < |bitmaps| ==> substitution[i] < |bitmaps|
    ensures substitution[bm] == bm ==> dx == 0
    ensures substitution[bm] != bm ==>
      var w := bitmaps[bm].width;
      var sw := bitmaps[substitution[bm]].width;
      Abs(2 * dx - (w - sw)) <= 1 && Abs(dx) <= Abs(w - sw)
  {
    if substitution[bm] != bm then CDiv(bitmaps[bm].width - bitmaps[substitution[bm]].width, 2) else 0
  }

  /**
   * The vertical shift owed to bitmap bm: 0 unless it is replaced, then
   * Vertical over the difference of its own and its substitution's baseline.
   */
  function BitmapYShift(bitmaps: seq<Bitmap>, substitution: seq<nat>, baseline: seq<int>, bm: nat): (dy: int)
    requires |substitution| == |bitmaps| && |baseline| == |bitmaps| && bm < |bitmaps|
    requires forall i :: 0 <= i < |bitmaps| ==> substitution[i] < |bitmaps|
    ensures substitution[bm] == bm ==> dy == 0
    ensures substitution[bm] != bm ==>
      var s := substitution[bm];
      var centred := CDiv(|bitmaps[bm].rows| - |bitmaps[s].rows|, 2);
      var aligned := RoundQuarter(baseline[bm] - baseline[s]);
      (dy == aligned || dy == centred) &&
      (Abs(aligned - centred) <= 1 + bitmaps[bm].width / 16 <==> dy == aligned)
  {
    if substitution[bm] != bm then
      Vertical(bitmaps, bm, substitution[bm], baseline[bm] - baseline[substitution[bm]])
    else 0
  }

  /** Entry k of x_adjust as the source writes it: by blit k when its bitmap is replaced, 0 otherwise. */
  function XShift(bitmaps: seq<Bitmap>, substitution: seq<nat>, blitBitmap: seq<nat>, k: nat): (dx: int)
    requires |substitution| == |bitmaps|
    requires forall i :: 0 <= i < |bitmaps| ==> substitution[i] < |bitmaps|
    requires forall i :: 0 <= i < |blitBitmap| ==> blitBitmap[i] < |bitmaps|
    ensures !Replaced(substitution, blitBitmap, k) ==> dx == 0
    ensures Replaced(substitution, blitBitmap, k) ==>
      var w := bitmaps[blitBitmap[k]].width;
      var sw := bitmaps[substitution[blitBitmap[k]]].width;
      Abs(2 * dx - (w - sw)) <= 1 && Abs(dx) <= Abs(w - sw)
  {
    if Replaced(substitution, blitBitmap, k) then BitmapXShift(bitmaps, substitution, blitBitmap[k]) else 0
  }

  /**
   * Entry k of y_adjust as the source writes it: by blit k when its bitmap
   * is replaced, from the baseline stored at index k; 0 otherwise.
   */
  function YShift(bitmaps: seq<Bitmap>, substitution: seq<nat>, blitBitmap: seq<nat>, baseline: seq<int>, k: nat): (dy: int)
    requires |substitution| == |bitmaps| && |baseline| == |bitmaps|
    requires forall i :: 0 <= i < |bitmaps| ==> substitution[i] < |bitmaps|
    requires forall i :: 0 <= i < |blitBitmap| ==> blitBitmap[i] < |bitmaps|
    requires Replaced(substitution, blitBitmap, k) ==> k < |bitmaps|
    ensures !Replaced(substitution, blitBitmap, k) ==> dy == 0
    ensures Replaced(substitution, blitBitmap, k) ==>
      var bm := blitBitmap[k];
      var s := substitution[bm];
      var centred := CDiv(|bitmaps[bm].rows| - |bitmaps[s].rows|, 2);
      var aligned := RoundQuarter(baseline[k] - baseline[s]);
      (dy == aligned || dy == centred) &&
      (Abs(aligned - centred) <= 1 + bitmaps[bm].width / 16 <==> dy == aligned)
  {
    if Replaced(substitution, blitBitmap, k) then
      var bm := blitBitmap[k];
      var s := substitution[bm];
      Vertical(bitmaps, bm, s, baseline[k] - baseline[s])
    else 0
  }

  /** Every replaced blit's number is a bitmap index, so the arrays of mdjvu_adjust are written in bounds. */
  predicate ShiftsInBounds(bitmaps: seq<Bitmap>, substitution: seq<nat>, blitBitmap: seq<nat>)
    requires forall i :: 0 <= i < |blitBitmap| ==> blitBitmap[i] < |substitution|
  {
    forall i :: 0 <= i < |blitBitmap| && Replaced(substitution, blitBitmap, i) ==> i < |bitmaps|
  }

  /**
   * The state mdjvu_adjust works on: the image's bitmaps, the index of each
   * bitmap's substitution (its own index when it has none), the
   * no-substitution flags, and the blits (position and bitmap index).
   */
  class Image {
    var bitmaps: seq<Bitmap>
    var substitution: seq<nat>
    var noSubstitution: seq<bool>
    var blitX: seq<int>
    var blitY: seq<int>
    var blitBitmap: seq<nat>

    ghost predicate Valid()
      reads this
    {
      |substitution| == |bitmaps| && |noSubstitution| == |bitmaps| &&
      (forall k :: 0 <= k < |bitmaps| ==> substitution[k] < |bitmaps|) &&
      (forall k :: 0 <= k < |bitmaps| ==> WellFormed(bitmaps[k])) &&
      |blitX| == |blitBitmap| && |blitY| == |blitBitmap| &&
      (forall i :: 0 <= i < |blitBitmap| ==> blitBitmap[i] < |bitmaps|)
    }

    /**
     * mdjvu_adjust as written: the shifts are stored by blit number and
     * looked up by bitmap index. When a replaced blit's number is not a
     * bitmap index the source writes past the end of x_adjust and y_adjust;
     * the model reports that with ok == false and leaves the image as it was.
     */
    method AdjustBlitsAsWritten(junk: int -> int) returns (ok: bool)
      requires Valid()
      modifies this
      ensures Valid()
      ensures ok <==> old(ShiftsInBounds(bitmaps, substitution, blitBitmap))
      ensures !ok ==> unchanged(this)
      ensures bitmaps == old(bitmaps) && substitution == old(substitution) && noSubstitution == old(noSubstitution)
      ensures |blitBitmap| == old(|blitBitmap|)
      ensures ok ==> forall i :: 0 <= i < |blitBitmap| ==> blitBitmap[i] == substitution[old(blitBitmap[i])]
      ensures ok ==> forall i :: 0 <= i < |blitBitmap| ==>
        blitX[i] == old(blitX[i]) + XShift(bitmaps, substitution, old(blitBitmap), old(blitBitmap[i]))
      ensures ok ==> forall i :: 0 <= i < |blitBitmap| ==>
        blitY[i] == old(blitY[i]) +
          YShift(bitmaps, substitution, old(blitBitmap), Baselines(bitmaps, noSubstitution, junk), old(blitBitmap[i]))
    {
      var baseline := ComputeBaselines(bitmaps, noSubstitution, junk);
      var xAdjust, yAdjust;
      xAdjust, yAdjust, ok := ComputeShifts(bitmaps, substitution, blitBitmap, baseline);
      if ok {
        MoveBlits(xAdjust, yAdjust);
      }
    }

    /**
     * mdjvu_adjust with the shifts stored and read at the same index, the
     * blit's bitmap index: every blit takes its bitmap's substitution and
     * moves by the shifts owed to its own bitmap.
     */
    method AdjustBlits(junk: int -> int)
      requires Valid()
      modifies this
      ensures Valid()
      ensures bitmaps == old(bitmaps) && substitution == old(substitution) && noSubstitution == old(noSubstitution)
      ensures |blitBitmap| == old(|blitBitmap|)
      ensures forall i :: 0 <= i < |blitBitmap| ==> blitBitmap[i] == substitution[old(blitBitmap[i])]
      ensures forall i :: 0 <= i < |blitBitmap| ==>
        blitX[i] == old(blitX[i]) + BitmapXShift(bitmaps, substitution, old(blitBitmap[i]))
      ensures forall i :: 0 <= i < |blitBitmap| ==>
        blitY[i] == old(blitY[i]) + BitmapYShift(bitmaps, substitution, Baselines(bitmaps, noSubstitution, junk), old(blitBitmap[i]))
      ensures forall i :: 0 <= i < |blitBitmap| && substitution[old(blitBitmap[i])] == old(blitBitmap[i]) ==>
        blitX[i] == old(blitX[i]) && blitY[i] == old(blitY[i]) && blitBitmap[i] == old(blitBitmap[i])
    {
      var baseline := ComputeBaselines(bitmaps, noSubstitution, junk);
      var xAdjust, yAdjust := ComputeBitmapShifts(bitmaps, substitution, blitBitmap, baseline);
      MoveBlits(xAdjust, yAdjust);
    }

    /** The third loop of mdjvu_adjust: each blit moves by the entries at its bitmap's index and takes the substitution. */
    method MoveBlits(xAdjust: array<int>, yAdjust: array<int>)
      requires Valid() && xAdjust.Length == |bitmaps| && yAdjust.Length == |bitmaps|
      modifies this
      ensures Valid()
      ensures bitmaps == old(bitmaps) && substitution == old(substitution) && noSubstitution == old(noSubstitution)
      ensures |blitBitmap| == old(|blitBitmap|)
      ensures forall i :: 0 <= i < |blitBitmap| ==> blitBitmap[i] == substitution[old(blitBitmap[i])]
      ensures forall i :: 0 <= i < |blitBitmap| ==> blitX[i] == old(blitX[i]) + xAdjust[old(blitBitmap[i])]
      ensures forall i :: 0 <= i < |blitBitmap| ==> blitY[i] == old(blitY[i]) + yAdjust[old(blitBitmap[i])]
    {
      var x0, y0, bb0 := blitX, blitY, blitBitmap;
      var nx, ny, nb := x0, y0, bb0;
      var b := |bb0|;
      var i := 0;
      while i < b
        invariant 0 <= i <= b
        invariant unchanged(this)
        invariant |nx| == b && |ny| == b && |nb| == b
        invariant forall k :: 0 <= k < i ==> nb[k] == substitution[bb0[k]]
        invariant forall k :: 0 <= k < i ==> nx[k] == x0[k] + xAdjust[bb0[k]]
        invariant forall k :: 0 <= k < i ==> ny[k] == y0[k] + yAdjust[bb0[k]]
        invariant forall k :: i <= k < b ==> nx[k] == x0[k] && ny[k] == y0[k] && nb[k] == bb0[k]
      {
        var x, y := nx[i], ny[i];
        var bm := nb[i];
        var s := substitution[bm];
        nx := nx[i := x + xAdjust[bm]];
        ny := ny[i := y + yAdjust[bm]];
        nb := nb[i := s];
        i := i + 1;
      }
      blitX, blitY, blitBitmap := nx, ny, nb;
    }
  }

  /** The first loop of mdjvu_adjust: the baseline of every bitmap that may be substituted. */
  method ComputeBaselines(bitmaps: seq<Bitmap>, noSubstitution: seq<bool>, junk: int -> int) returns (baseline: array<int>)
    requires |noSubstitution| == |bitmaps|
    requires forall k :: 0 <= k < |bitmaps| ==> WellFormed(bitmaps[k])
    ensures fresh(baseline)
    ensures baseline.Length == |bitmaps|
    ensures forall k :: 0 <= k < |bitmaps| && !noSubstitution[k] ==> baseline[k] == BaselineOf(bitmaps[k])
    ensures baseline[..] == Baselines(bitmaps, noSubstitution, junk)
  {
    var n := |bitmaps|;
    baseline := new int[n](k => junk(k));
    var i := 0;
    while i < n
      invariant 0 <= i <= n
      invariant forall k :: 0 <= k < i ==> baseline[k] == if noSubstitution[k] then junk(k) else BaselineOf(bitmaps[k])
      invariant forall k :: i <= k < n ==> baseline[k] == junk(k)
    {
      if !noSubstitution[i] {
        baseline[i] := ComputeBaseline(bitmaps[i]);
      }
      i := i + 1;
    }
  }

  /**
   * The second loop of mdjvu_adjust as written: x_adjust and y_adjust,
   * written at the number of each blit whose bitmap is replaced. It stops
   * with ok == false at the first replaced blit whose number is past the
   * arrays' end, where the source writes out of bounds.
   */
  method ComputeShifts(bitmaps: seq<Bitmap>, substitution: seq<nat>, blitBitmap: seq<nat>, baseline: array<int>)
    returns (xAdjust: array<int>, yAdjust: array<int>, ok: bool)
    requires |substitution| == |bitmaps| && baseline.Length == |bitmaps|
    requires forall k :: 0 <= k < |bitmaps| ==> substitution[k] < |bitmaps|
    requires forall k :: 0 <= k < |blitBitmap| ==> blitBitmap[k] < |bitmaps|
    ensures xAdjust.Length == |bitmaps| && yAdjust.Length == |bitmaps|
    ensures ok <==> ShiftsInBounds(bitmaps, substitution, blitBitmap)
    ensures ok ==> forall k :: 0 <= k < |bitmaps| ==> xAdjust[k] == XShift(bitmaps, substitution, blitBitmap, k)
    ensures ok ==> forall k :: 0 <= k < |bitmaps| ==> yAdjust[k] == YShift(bitmaps, substitution, blitBitmap, baseline[..], k)
  {
    var n, b := |bitmaps|, |blitBitmap|;
    xAdjust := new int[n](k => 0);
    yAdjust := new int[n](k => 0);
    ghost var bl := baseline[..];
    var i := 0;
    while i < b
      invariant 0 <= i <= b
      invariant baseline[..] == bl
      invariant xAdjust.Length == n && yAdjust.Length == n
      invariant forall k :: 0 <= k < i && Replaced(substitution, blitBitmap, k) ==> k < n
      invariant forall k :: 0 <= k < i && k < n ==> xAdjust[k] == XShift(bitmaps, substitution, blitBitmap, k)
      invariant forall k :: 0 <= k < i && k < n ==> yAdjust[k] == YShift(bitmaps, substitution, blitBitmap, bl, k)
      invariant forall k :: i <= k < n ==> xAdjust[k] == 0 && yAdjust[k] == 0
    {
      var bm := blitBitmap[i];
      if substitution[bm] != bm {
        assert Replaced(substitution, blitBitmap, i);
        if i >= n {
          return xAdjust, yAdjust, false;
        }
        xAdjust[i], yAdjust[i] := BlitShift(bitmaps, substitution, blitBitmap, baseline[..], i);
      }
      i := i + 1;
    }
    ok := true;
  }

  /** The shifts one replaced blit receives in the second loop of mdjvu_adjust as written. */
  method BlitShift(bitmaps: seq<Bitmap>, substitution: seq<nat>, blitBitmap: seq<nat>, baseline: seq<int>, i: nat)
    returns (dx: int, dy: int)
    requires |substitution| == |bitmaps| && |baseline| == |bitmaps|
    requires forall k :: 0 <= k < |bitmaps| ==> substitution[k] < |bitmaps|
    requires forall k :: 0 <= k < |blitBitmap| ==> blitBitmap[k] < |bitmaps|
    requires Replaced(substitution, blitBitmap, i) && i < |bitmaps|
    ensures dx == XShift(bitmaps, substitution, blitBitmap, i)
    ensures dy == YShift(bitmaps, substitution, blitBitmap, baseline, i)
  {
    var bm := blitBitmap[i];
    var s := substitution[bm];
    var w: int, h: int := bitmaps[bm].width, |bitmaps[bm].rows|;
    var sw: int, sh: int := bitmaps[s].width, |bitmaps[s].rows|;
    dx := CDiv(w - sw, 2);
    dy := CDiv(h - sh, 2);
    var adjust := baseline[i] - baseline[s];
    adjust := RoundQuarter(adjust);
    if Abs(adjust - dy) <= 1 + w / 16 {
      dy := adjust;
    }
  }

  /**
   * The second loop with the shifts stored at the replaced bitmap's index
   * and computed from that bitmap's baseline: afterwards each entry used by
   * a blit holds the shifts owed to that bitmap, and every other entry is 0.
   */
  method ComputeBitmapShifts(bitmaps: seq<Bitmap>, substitution: seq<nat>, blitBitmap: seq<nat>, baseline: array<int>)
    returns (xAdjust: array<int>, yAdjust: array<int>)
    requires |substitution| == |bitmaps| && baseline.Length == |bitmaps|
    requires forall k :: 0 <= k < |bitmaps| ==> substitution[k] < |bitmaps|
    requires forall k :: 0 <= k < |blitBitmap| ==> blitBitmap[k] < |bitmaps|
    ensures xAdjust.Length == |bitmaps| && yAdjust.Length == |bitmaps|
    ensures forall k :: 0 <= k < |bitmaps| ==>
      xAdjust[k] == if k in blitBitmap then BitmapXShift(bitmaps, substitution, k) else 0
    ensures forall k :: 0 <= k < |bitmaps| ==>
      yAdjust[k] == if k in blitBitmap then BitmapYShift(bitmaps, substitution, baseline[..], k) else 0
  {
    var n, b := |bitmaps|, |blitBitmap|;
    xAdjust := new int[n](k => 0);
    yAdjust := new int[n](k => 0);
    ghost var bl := baseline[..];
    var i := 0;
    while i < b
      invariant 0 <= i <= b
      invariant baseline[..] == bl
      invariant forall k :: 0 <= k < n ==>
        xAdjust[k] == if k in blitBitmap[..i] then BitmapXShift(bitmaps, substitution, k) else 0
      invariant forall k :: 0 <= k < n ==>
        yAdjust[k] == if k in blitBitmap[..i] then BitmapYShift(bitmaps, substitution, bl, k) else 0
    {
      var bm := blitBitmap[i];
      assert blitBitmap[..i + 1] == blitBitmap[..i] + [bm];
      if substitution[bm] != bm {
        xAdjust[bm], yAdjust[bm] := BitmapShift(bitmaps, substitution, baseline[..], bm);
      }
      i := i + 1;
    }
    assert blitBitmap[..b] == blitBitmap;
  }

  /** The shifts owed to one replaced bitmap. */
  method BitmapShift(bitmaps: seq<Bitmap>, substitution: seq<nat>, baseline: seq<int>, bm: nat)
    returns (dx: int, dy: int)
    requires |substitution| == |bitmaps| && |baseline| == |bitmaps| && bm < |bitmaps|
    requires forall k :: 0 <= k < |bitmaps| ==> substitution[k] < |bitmaps|
    requires substitution[bm] != bm
    ensures dx == BitmapXShift(bitmaps, substitution, bm)
    ensures dy == BitmapYShift(bitmaps, substitution, baseline, bm)
  {
    var s := substitution[bm];
    var w: int, h: int := bitmaps[bm].width, |bitmaps[bm].rows|;
    var sw: int, sh: int := bitmaps[s].width, |bitmaps[s].rows|;
    dx := CDiv(w - sw, 2);
    dy := CDiv(h - sh, 2);
    var adjust := RoundQuarter(baseline[bm] - baseline[s]);
    if Abs(adjust - dy) <= 1 + w / 16 {
      dy := adjust;
    }
  }

  /**
   * When blit k uses bitmap k (the layout of a freshly split page) the
   * source's lookup and the corrected one agree: every blit moves by the
   * shifts owed to its own bitmap, and the blits' indices are in bounds.
   */
  lemma OwnLayoutAgrees(bitmaps: seq<Bitmap>, substitution: seq<nat>, blitBitmap: seq<nat>, baseline: seq<int>, i: nat)
    requires |substitution| == |bitmaps| && |baseline| == |bitmaps|
    requires forall k :: 0 <= k < |bitmaps| ==> substitution[k] < |bitmaps|
    requires forall k :: 0 <= k < |blitBitmap| ==> blitBitmap[k] == k && k < |bitmaps|
    requires i < |blitBitmap|
    ensures ShiftsInBounds(bitmaps, substitution, blitBitmap)
    ensures XShift(bitmaps, substitution, blitBitmap, blitBitmap[i]) == BitmapXShift(bitmaps, substitution, blitBitmap[i])
    ensures YShift(bitmaps, substitution, blitBitmap, baseline, blitBitmap[i]) ==
      BitmapYShift(bitmaps, substitution, baseline, blitBitmap[i])
  {
  }

  /**
   * When blit k uses bitmap k (the layout of a freshly split page), each
   * replaced blit is moved by the shifts computed for itself, and a blit
   * whose bitmap is its own substitution does not move.
   */
  lemma OwnShifts(bitmaps: seq<Bitmap>, substitution: seq<nat>, blitBitmap: seq<nat>, baseline: seq<int>, i: nat)
    requires |substitution| == |bitmaps| && |baseline| == |bitmaps|
    requires forall k :: 0 <= k < |bitmaps| ==> substitution[k] < |bitmaps|
    requires forall k :: 0 <= k < |blitBitmap| ==> blitBitmap[k] == k && k < |bitmaps|
    requires i < |blitBitmap|
    ensures !Replaced(substitution, blitBitmap, i) ==>
      XShift(bitmaps, substitution, blitBitmap, blitBitmap[i]) == 0 &&
      YShift(bitmaps, substitution, blitBitmap, baseline, blitBitmap[i]) == 0
    ensures Replaced(substitution, blitBitmap, i) ==>
      XShift(bitmaps, substitution, blitBitmap, blitBitmap[i]) ==
        CDiv(bitmaps[i].width - bitmaps[substitution[i]].width, 2)
  {
  }

  /**
   * With another layout the shifts are looked up by the blit's bitmap
   * index but were stored by blit number: here blit 1 keeps its bitmap
   * (bitmap 0, its own substitution) and is still moved, by the shift
   * computed for blit 0; the corrected lookup leaves it in place.
   */
  lemma MixedIndicesMoveUnreplacedBlit()
    ensures var bitmaps := [Bitmap(1, [[true]]), Bitmap(5, [[true, true, true, true, true]])];
      var substitution := [0, 0];
      var blitBitmap := [1, 0];
      !Replaced(substitution, blitBitmap, 1) &&
      XShift(bitmaps, substitution, blitBitmap, blitBitmap[1]) == 2 &&
      BitmapXShift(bitmaps, substitution, blitBitmap[1]) == 0
  {
    var bitmaps := [Bitmap(1, [[true]]), Bitmap(5, [[true, true, true, true, true]])];
    var substitution := [0, 0];
    var blitBitmap := [1, 0];
    assert Replaced(substitution, blitBitmap, 0);
  }
}
