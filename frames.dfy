/**
 * Framework extraction (src/matcher/frames.c): a pattern is peeled one
 * layer of black pixels per pass; the pass in which a pixel is removed is
 * its rank, and the pixels that survive every pass form the frame.
 *
 * Pixels are modelled as booleans: the source only ever tests them for
 * being non-zero. A pattern of w x h pixels is stored with a one-pixel
 * white margin, as an array of (h + 2) x (w + 2) cells where pixel (i, j)
 * sits at [i + 1, j + 1].
 */
module Frames {

  /** The eight neighbours of a pixel: ul u ur / l . r / dl d dr. */
  datatype Around = Around(ul: bool, u: bool, ur: bool, l: bool, r: bool, dl: bool, d: bool, dr: bool)

  function B(b: bool): int { if b then 1 else 0 }

  /** Number of black 4-neighbours. */
  function Sum4(n: Around): int { B(n.u) + B(n.d) + B(n.l) + B(n.r) }

  /** Exactly two opposite 4-neighbours are black: a stroke passes through. */
  predicate OppositePair(n: Around) {
    (n.l && n.r && !n.u && !n.d) || (n.u && n.d && !n.l && !n.r)
  }

  /** The neighbourhood turned a quarter clockwise. */
  function Rotate(n: Around): Around {
    Around(n.dl, n.l, n.ul, n.d, n.u, n.dr, n.r, n.ur)
  }

  /**
   * donut_connectivity_test: whether removing a pixel with this
   * neighbourhood could break the connection between its neighbours.
   * With three black 4-neighbours the selector x names the middle one,
   * and the pixel is needed unless the two diagonals beside that middle
   * neighbour are black; with two adjacent ones it is needed unless the
   * diagonal between them is black.
   */
  function ConnectivityTest(n: Around): (keep: bool)
    ensures Sum4(n) == 1 ==> !keep
    ensures Sum4(n) == 0 || Sum4(n) == 4 || OppositePair(n) ==> keep
  {
    var sum := Sum4(n);
    if sum == 3 then
      var x := 6 - (B(n.u) + 2 * B(n.l) + B(n.d) + 2 * B(n.d));
      if x == 0 then !(n.ul && n.dl)
      else if x == 1 then !(n.dl && n.dr)
      else if x == 2 then !(n.ur && n.dr)
      else if x == 3 then !(n.ul && n.ur)
      else assert false; false
    else if sum == 2 then
      var s := B(n.l) + B(n.r);
      if s % 2 == 1 then
        if n.l then (if n.u then !n.ul else !n.dl)
        else (if n.u then !n.ur else !n.dr)
      else true
    else if sum == 0 || sum == 4 then true
    else if sum == 1 then false
    else assert false; false
  }

  /** The selector of donut_transform_pixel for one or three black 4-neighbours. */
  function TransformSelector(n: Around): (x: int)
    requires Sum4(n) == 1 || Sum4(n) == 3
    ensures 0 <= x <= 3
  {
    var x := B(n.u) + 2 * B(n.l) + B(n.d) + 2 * B(n.d);
    if Sum4(n) == 3 then (((6 - x) as bv8) ^ 2) as int else x
  }

  /**
   * donut_transform_pixel: the grey-keeping rule for the centre pixel t.
   * A white centre stays white; a centre with none or all four
   * 4-neighbours black, or with a stroke through it, stays.
   */
  function TransformPixel(t: bool, n: Around): (keep: bool)
    ensures !t ==> !keep
    ensures t && (Sum4(n) == 0 || Sum4(n) == 4 || OppositePair(n)) ==> keep
  {
    if !t then false
    else
      var sum := Sum4(n);
      if sum == 1 || sum == 3 then
        var x := TransformSelector(n);
        if x == 0 then !(n.ur && n.dr)
        else if x == 1 then !(n.ul && n.ur)
        else if x == 2 then !(n.ul && n.dl)
        else !(n.dl && n.dr)
      else if sum == 2 then
        var s := B(n.l) + B(n.r);
        if s % 2 == 1 then
          if n.l then (if n.u then !n.ul else !n.dl)
          else (if n.u then !n.ur else !n.dr)
        else true
      else true
  }

  /**
   * The two rules agree on a black centre except where exactly one
   * 4-neighbour is black: there the connectivity test lets the pixel go
   * and the transform keeps it unless the two diagonals beside that
   * neighbour are black.
   */
  lemma TransformAgreesWithConnectivity(n: Around)
    ensures Sum4(n) != 1 ==> TransformPixel(true, n) == ConnectivityTest(n)
    ensures Sum4(n) == 1 && n.u ==> TransformPixel(true, n) == !(n.ul && n.ur)
    ensures Sum4(n) == 1 && n.d ==> TransformPixel(true, n) == !(n.dl && n.dr)
    ensures Sum4(n) == 1 && n.l ==> TransformPixel(true, n) == !(n.ul && n.dl)
    ensures Sum4(n) == 1 && n.r ==> TransformPixel(true, n) == !(n.ur && n.dr)
  {
  }

  /** Neither rule depends on which way up the pattern is. */
  lemma RulesRotationInvariant(t: bool, n: Around)
    ensures TransformPixel(t, Rotate(n)) == TransformPixel(t, n)
    ensures ConnectivityTest(Rotate(n)) == ConnectivityTest(n)
  {
  }

  /** The old neighbourhood of pixel (i, j) in a pattern with margins. */
  function Hood(p: array2<bool>, i: int, j: int): Around
    reads p
    requires 0 <= i && i + 2 < p.Length0 && 0 <= j && j + 2 < p.Length1
  {
    Around(p[i, j], p[i, j + 1], p[i, j + 2], p[i + 1, j], p[i + 1, j + 2], p[i + 2, j], p[i + 2, j + 1], p[i + 2, j + 2])
  }

  /** Pixel (i, j) of the new layer, white outside it. */
  function New(b: array2<bool>, i: int, j: int): bool
    reads b
  {
    0 <= i < b.Length0 && 0 <= j < b.Length1 && b[i, j]
  }

  /**
   * The neighbourhood the connectivity test sees in flay: pixels above and
   * to the left come from the new layer, which is built in raster order;
   * those to the right and below from the old one.
   */
  function Mixed(old_: Around, b: array2<bool>, i: int, j: int): Around
    reads b
  {
    Around(New(b, i - 1, j - 1), New(b, i - 1, j), New(b, i - 1, j + 1), New(b, i, j - 1),
           old_.r, old_.dl, old_.d, old_.dr)
  }

  /** A pixel survives a pass when the transform keeps it or removing it would disconnect the layer. */
  function Peeled(t: bool, oldHood: Around, newHood: Around): (keep: bool)
    ensures keep ==> t
  {
    TransformPixel(t, oldHood) || (t && ConnectivityTest(newHood))
  }

  /** The neighbourhood the connectivity test sees, with the new rows given as values. */
  function NewHood(above: seq<bool>, row: seq<bool>, j: int, oldHood: Around): Around {
    Around(At(above, j - 1), At(above, j), At(above, j + 1), At(row, j - 1),
           oldHood.r, oldHood.dl, oldHood.d, oldHood.dr)
  }

  function At(s: seq<bool>, k: int): bool {
    0 <= k < |s| && s[k]
  }

  /**
   * The first n pixels of new row i, built left to right as flay builds
   * them: each pixel from its old neighbourhood, the finished new row
   * above (empty for the first row) and the new pixel to its left.
   */
  ghost function NewRow(p: array2<bool>, above: seq<bool>, i: int, n: nat): (row: seq<bool>)
    reads p
    requires 0 <= i && i + 2 < p.Length0 && n + 2 <= p.Length1
    ensures |row| == n
    decreases n, 1
  {
    if n == 0 then []
    else NewRow(p, above, i, n - 1) + [Cell(p, above, i, n - 1)]
  }

  /** Pixel j of new row i. */
  ghost function Cell(p: array2<bool>, above: seq<bool>, i: int, j: nat): bool
    reads p
    requires 0 <= i && i + 2 < p.Length0 && j + 3 <= p.Length1
    decreases j + 1, 0
  {
    Peeled(p[i + 1, j + 1], Hood(p, i, j), NewHood(above, NewRow(p, above, i, j), j, Hood(p, i, j)))
  }

  /** The first k rows of the layer flay builds from the old layer p. */
  ghost function NewLayer(p: array2<bool>, k: nat): (rows: seq<seq<bool>>)
    reads p
    requires k + 2 <= p.Length0 && 2 <= p.Length1
    ensures |rows| == k && forall i :: 0 <= i < k ==> |rows[i]| == p.Length1 - 2
  {
    if k == 0 then []
    else
      var rows := NewLayer(p, k - 1);
      rows + [NewRow(p, Prev(rows, k - 1), k - 1, p.Length1 - 2)]
  }

  /** A shorter new row is a prefix of a longer one. */
  lemma {:induction false} NewRowPrefix(p: array2<bool>, above: seq<bool>, i: int, m: nat, n: nat)
    requires 0 <= i && i + 2 < p.Length0 && m <= n && n + 2 <= p.Length1
    ensures NewRow(p, above, i, m) == NewRow(p, above, i, n)[..m]
    decreases n
  {
    if m < n {
      NewRowPrefix(p, above, i, m, n - 1);
      assert NewRow(p, above, i, n)[..n - 1] == NewRow(p, above, i, n - 1);
    }
  }

  /** Every pixel of a new row obeys the rule of flay within the whole row. */
  lemma NewRowRule(p: array2<bool>, above: seq<bool>, i: int, n: nat, j: int)
    requires 0 <= i && i + 2 < p.Length0 && n + 2 <= p.Length1 && 0 <= j < n
    ensures var row := NewRow(p, above, i, n);
      row[j] == Peeled(p[i + 1, j + 1], Hood(p, i, j), NewHood(above, row, j, Hood(p, i, j)))
  {
    var row := NewRow(p, above, i, n);
    NewRowPrefix(p, above, i, j, n);
    NewRowPrefix(p, above, i, j + 1, n);
    assert NewHood(above, row, j, Hood(p, i, j)) == NewHood(above, NewRow(p, above, i, j), j, Hood(p, i, j));
  }

  /** A layer of fewer rows is a prefix of a layer of more. */
  lemma {:induction false} NewLayerPrefix(p: array2<bool>, k: nat, n: nat)
    requires k <= n && n + 2 <= p.Length0 && 2 <= p.Length1
    ensures NewLayer(p, k) == NewLayer(p, n)[..k]
    decreases n
  {
    if k < n {
      NewLayerPrefix(p, k, n - 1);
      assert NewLayer(p, n)[..n - 1] == NewLayer(p, n - 1);
    }
  }

  /** The last row of a layer of i + 1 rows is built under the layer of i rows. */
  lemma NewLayerLast(p: array2<bool>, i: nat)
    requires i + 3 <= p.Length0 && 2 <= p.Length1
    ensures NewLayer(p, i + 1)[i] == NewRow(p, Prev(NewLayer(p, i), i), i, p.Length1 - 2)
  {
    var pre := NewLayer(p, i);
    assert NewLayer(p, i + 1) == pre + [NewRow(p, Prev(pre, i), i, p.Length1 - 2)];
  }

  /** Row i of a layer is the new row built under row i - 1 of it. */
  lemma NewLayerRow(p: array2<bool>, n: nat, i: int)
    requires n + 2 <= p.Length0 && 2 <= p.Length1 && 0 <= i < n
    ensures var rows := NewLayer(p, n);
      rows[i] == NewRow(p, Prev(rows, i), i, p.Length1 - 2)
  {
    LayerAt(p, n, i);
    NewLayerLast(p, i);
    LayerPrev(p, n, i);
  }

  /** Row i of a layer is row i of its first i + 1 rows. */
  lemma LayerAt(p: array2<bool>, n: nat, i: nat)
    requires n + 2 <= p.Length0 && 2 <= p.Length1 && i < n
    ensures NewLayer(p, n)[i] == NewLayer(p, i + 1)[i]
  {
    NewLayerPrefix(p, i + 1, n);
  }

  /** The row above row i is the same in a layer and in its first i rows. */
  lemma LayerPrev(p: array2<bool>, n: nat, i: nat)
    requires n + 2 <= p.Length0 && 2 <= p.Length1 && i < n
    ensures Prev(NewLayer(p, i), i) == Prev(NewLayer(p, n), i)
  {
    if i > 0 {
      NewLayerPrefix(p, i, n);
    }
  }

  /**
   * One row of the first loop of flay: builds row i of the new layer in
   * buf from the old layer in pixels and the new row above, and records
   * `rank` for every pixel it removes. Returns whether it removed any, and
   * (as a value) the new row.
   */
  method FlayRow(pixels: array2<bool>, buf: array2<bool>, i: int, rank: int, ranks: array2<int>, ghost above: seq<bool>)
    returns (changed: bool, ghost row: seq<bool>)
    requires pixels.Length0 == buf.Length0 + 2 && pixels.Length1 == buf.Length1 + 2
    requires ranks.Length0 == buf.Length0 && ranks.Length1 == buf.Length1
    requires 0 <= i < buf.Length0 && pixels != buf
    requires i == 0 ==> above == []
    requires i > 0 ==> |above| == buf.Length1 && forall j :: 0 <= j < buf.Length1 ==> buf[i - 1, j] == above[j]
    modifies buf, ranks
    ensures row == NewRow(pixels, above, i, buf.Length1) && RowHolds(buf, i, row)
    ensures forall i', j :: 0 <= i' < buf.Length0 && 0 <= j < buf.Length1 && i' != i ==> buf[i', j] == old(buf[i', j])
    ensures RanksRecorded(ranks, pixels, i, row, rank, old(RowValues(ranks, i)))
    ensures forall i', j :: 0 <= i' < ranks.Length0 && 0 <= j < ranks.Length1 && i' != i ==> ranks[i', j] == old(ranks[i', j])
    ensures changed == Dropped(pixels, i, row)
  {
    var w := buf.Length1;
    changed := false;
    row := [];
    ghost var ranks0 := RowValues(ranks, i);
    var j := 0;
    while j < w
      invariant 0 <= j <= w && row == NewRow(pixels, above, i, j)
      invariant RowHolds(buf, i, row)
      invariant forall i', j' :: 0 <= i' < buf.Length0 && 0 <= j' < w && i' != i ==> buf[i', j'] == old(buf[i', j'])
      invariant RanksRecorded(ranks, pixels, i, row, rank, ranks0)
      invariant forall j' :: j <= j' < w ==> ranks[i, j'] == ranks0[j']
      invariant forall i', j' :: 0 <= i' < ranks.Length0 && 0 <= j' < w && i' != i ==> ranks[i', j'] == old(ranks[i', j'])
      invariant changed == Dropped(pixels, i, row)
    {
      var keep, removed := FlayPixel(pixels, buf, i, j, above, row);
      Record(pixels, buf, i, j, keep, removed, rank, ranks, row, ranks0);
      changed := changed || removed;
      NewRowStep(pixels, above, i, row, keep);
      row := row + [keep];
      j := j + 1;
    }
  }

  /** Some black pixel of row i of the old layer p is white in row. */
  ghost predicate Dropped(p: array2<bool>, i: int, row: seq<bool>)
    reads p
    requires 0 <= i && i + 2 < p.Length0 && |row| + 2 <= p.Length1
  {
    exists j :: 0 <= j < |row| && p[i + 1, j + 1] && !row[j]
  }

  /**
   * Writes the decision for pixel (i, j) to buf and, for a removed pixel,
   * `rank` to ranks; touches no other cell.
   */
  method Record(pixels: array2<bool>, buf: array2<bool>, i: int, j: int, keep: bool, removed: bool,
                rank: int, ranks: array2<int>, ghost row: seq<bool>, ghost ranks0: seq<int>)
    requires pixels.Length0 == buf.Length0 + 2 && pixels.Length1 == buf.Length1 + 2
    requires ranks.Length0 == buf.Length0 && ranks.Length1 == buf.Length1 && |ranks0| == ranks.Length1
    requires 0 <= i < buf.Length0 && 0 <= j < buf.Length1 && |row| == j
    requires removed == (pixels[i + 1, j + 1] && !keep)
    requires RowHolds(buf, i, row) && RanksRecorded(ranks, pixels, i, row, rank, ranks0)
    requires forall j' :: j <= j' < buf.Length1 ==> ranks[i, j'] == ranks0[j']
    modifies buf, ranks
    ensures RowHolds(buf, i, row + [keep]) && RanksRecorded(ranks, pixels, i, row + [keep], rank, ranks0)
    ensures forall j' :: j < j' < buf.Length1 ==> ranks[i, j'] == ranks0[j']
    ensures forall i', j' :: 0 <= i' < buf.Length0 && 0 <= j' < buf.Length1 && i' != i ==> buf[i', j'] == old(buf[i', j'])
    ensures forall i', j' :: 0 <= i' < ranks.Length0 && 0 <= j' < ranks.Length1 && i' != i ==> ranks[i', j'] == old(ranks[i', j'])
    ensures Dropped(pixels, i, row + [keep]) == (Dropped(pixels, i, row) || removed)
  {
    if removed {
      ranks[i, j] := rank;
    }
    buf[i, j] := keep;
    assert removed ==> (row + [keep])[j] == keep;
  }

  /** The pixel flay decides next extends the new row. */
  lemma NewRowStep(p: array2<bool>, above: seq<bool>, i: int, row: seq<bool>, keep: bool)
    requires 0 <= i && i + 2 < p.Length0 && |row| + 3 <= p.Length1
    requires row == NewRow(p, above, i, |row|)
    requires keep == Peeled(p[i + 1, |row| + 1], Hood(p, i, |row|), NewHood(above, row, |row|, Hood(p, i, |row|)))
    ensures row + [keep] == NewRow(p, above, i, |row| + 1)
  {
  }

  /** Row i of an array, as a value. */
  function RowValues<T>(a: array2<T>, i: int): (s: seq<T>)
    reads a
    requires 0 <= i < a.Length0
    ensures |s| == a.Length1 && forall j :: 0 <= j < a.Length1 ==> s[j] == a[i, j]
  {
    seq(a.Length1, j requires 0 <= j < a.Length1 reads a => a[i, j])
  }

  /** Row i of b starts with the values of row. */
  ghost predicate RowHolds(b: array2<bool>, i: int, row: seq<bool>)
    reads b
    requires 0 <= i < b.Length0 && |row| <= b.Length1
  {
    forall j :: 0 <= j < |row| ==> b[i, j] == row[j]
  }

  /** The ranks of row i so far: `rank` where the new row dropped a black pixel, the old value elsewhere. */
  ghost predicate RanksRecorded(ranks: array2<int>, p: array2<bool>, i: int, row: seq<bool>, rank: int, ranks0: seq<int>)
    reads ranks, p
    requires 0 <= i < ranks.Length0 && i + 2 < p.Length0 && |row| <= ranks.Length1 && |row| + 2 <= p.Length1
    requires |ranks0| == ranks.Length1
  {
    forall j :: 0 <= j < |row| ==> ranks[i, j] == if p[i + 1, j + 1] && !row[j] then rank else ranks0[j]
  }

  /**
   * The decision of flay for pixel (i, j): the transform of the old
   * neighbourhood, and for a black pixel it would drop, the connectivity
   * test on the new pixels above and to the left and the old ones to the
   * right and below. The new row so far, and the new row above, are given
   * as values that buf holds.
   */
  method FlayPixel(pixels: array2<bool>, buf: array2<bool>, i: int, j: int, ghost above: seq<bool>, ghost row: seq<bool>)
    returns (keep: bool, removed: bool)
    requires pixels.Length0 == buf.Length0 + 2 && pixels.Length1 == buf.Length1 + 2
    requires 0 <= i < buf.Length0 && 0 <= j < buf.Length1 && |row| == j
    requires i == 0 ==> above == []
    requires i > 0 ==> |above| == buf.Length1 && forall k :: 0 <= k < buf.Length1 ==> buf[i - 1, k] == above[k]
    requires forall k :: 0 <= k < j ==> buf[i, k] == row[k]
    ensures keep == Peeled(pixels[i + 1, j + 1], Hood(pixels, i, j), NewHood(above, row, j, Hood(pixels, i, j)))
    ensures removed == (pixels[i + 1, j + 1] && !keep)
  {
    var w := buf.Length1;
    var oldHood := Hood(pixels, i, j);
    keep := TransformPixel(pixels[i + 1, j + 1], oldHood);
    removed := false;
    if pixels[i + 1, j + 1] && !keep {
      var newHood := Around(i > 0 && j > 0 && buf[i - 1, j - 1], i > 0 && buf[i - 1, j],
                            i > 0 && j < w - 1 && buf[i - 1, j + 1], j > 0 && buf[i, j - 1],
                            oldHood.r, oldHood.dl, oldHood.d, oldHood.dr);
      assert newHood == NewHood(above, row, j, oldHood);
      if !ConnectivityTest(newHood) {
        removed := true;
      } else {
        keep := true;
      }
    }
  }

  /**
   * flay: peels one layer off the pattern in pixels (with its white
   * margin), recording `rank` for each removed pixel, and copies the new
   * layer back. Returns whether any pixel was removed.
   */
  method Flay(pixels: array2<bool>, buf: array2<bool>, rank: int, ranks: array2<int>) returns (changed: bool)
    requires pixels.Length0 == buf.Length0 + 2 && pixels.Length1 == buf.Length1 + 2
    requires ranks.Length0 == buf.Length0 && ranks.Length1 == buf.Length1
    requires buf.Length0 > 0 && buf.Length1 > 0 && pixels != buf
    modifies pixels, buf, ranks
    ensures forall i, j :: 0 <= i < buf.Length0 && 0 <= j < buf.Length1 ==>
      buf[i, j] == Peeled(old(pixels[i + 1, j + 1]), old(Hood(pixels, i, j)), Mixed(old(Hood(pixels, i, j)), buf, i, j))
    ensures forall i, j :: 0 <= i < buf.Length0 && 0 <= j < buf.Length1 ==> pixels[i + 1, j + 1] == buf[i, j]
    ensures forall i, j :: 0 <= i < pixels.Length0 && 0 <= j < pixels.Length1 && Margin(pixels, i, j) ==>
      pixels[i, j] == old(pixels[i, j])
    ensures Stepped(old(Interior(pixels)), old(Values(ranks)), Interior(pixels), Values(ranks), rank, buf.Length0, buf.Length1)
    ensures changed == Lost(old(Interior(pixels)), Interior(pixels))
  {
    ghost var t0, k0 := Interior(pixels), Values(ranks);
    changed := BuildLayer(pixels, buf, rank, ranks);
    ghost var rows := NewLayer(pixels, buf.Length0);
    LayerWithin(pixels, buf.Length0);
    LayerStepped(pixels, ranks, rank, rows, t0, k0, changed);
    LayerMatches(pixels, buf);
    CopyInterior(pixels, buf);
    LayerCopied(pixels, buf, rows);
  }

  /** The new layer only keeps black pixels of the old one. */
  lemma LayerWithin(p: array2<bool>, n: nat)
    requires n + 2 <= p.Length0 && 2 <= p.Length1
    ensures forall i, j :: 0 <= i < n && 0 <= j < p.Length1 - 2 && NewLayer(p, n)[i][j] ==> p[i + 1, j + 1]
  {
    var rows := NewLayer(p, n);
    forall i, j | 0 <= i < n && 0 <= j < p.Length1 - 2 && rows[i][j]
      ensures p[i + 1, j + 1]
    {
      NewLayerRow(p, n, i);
      NewRowRule(p, Prev(rows, i), i, p.Length1 - 2, j);
    }
  }

  /** What the first loop of flay records, read as one pass from the old pattern to the new layer. */
  lemma LayerStepped(p: array2<bool>, ranks: array2<int>, rank: int, rows: seq<seq<bool>>,
                     t0: seq<seq<bool>>, k0: seq<seq<int>>, changed: bool)
    requires p.Length0 == ranks.Length0 + 2 && p.Length1 == ranks.Length1 + 2
    requires t0 == Interior(p) && Shaped(k0, ranks.Length0, ranks.Length1) && rows == NewLayer(p, ranks.Length0)
    requires forall i, j :: 0 <= i < ranks.Length0 && 0 <= j < ranks.Length1 && rows[i][j] ==> p[i + 1, j + 1]
    requires LayerRanks(ranks, p, rows, rank, k0) && changed == LayerDropped(p, rows)
    ensures Shaped(t0, ranks.Length0, ranks.Length1) && Shaped(rows, ranks.Length0, ranks.Length1)
    ensures Stepped(t0, k0, rows, Values(ranks), rank, ranks.Length0, ranks.Length1)
    ensures changed == Lost(t0, rows)
  {
    if changed {
      var i, j :| 0 <= i < |rows| && i + 2 < p.Length0 && 0 <= j < |rows[i]| && p[i + 1, j + 1] && !rows[i][j];
      assert t0[i][j] && !rows[i][j];
    }
    if Lost(t0, rows) {
      var i, j :| 0 <= i < |t0| && 0 <= j < |t0[i]| && t0[i][j] && !rows[i][j];
      assert p[i + 1, j + 1];
    }
  }

  /** After the copy, the pattern inside the margin is the new layer. */
  lemma LayerCopied(p: array2<bool>, b: array2<bool>, rows: seq<seq<bool>>)
    requires p.Length0 == b.Length0 + 2 && p.Length1 == b.Length1 + 2
    requires Shaped(rows, b.Length0, b.Length1) && LayerHeld(b, rows)
    requires forall i, j :: 0 <= i < b.Length0 && 0 <= j < b.Length1 ==> p[i + 1, j + 1] == b[i, j]
    ensures Interior(p) == rows
  {
    var t := Interior(p);
    forall i | 0 <= i < b.Length0
      ensures t[i] == rows[i]
    {
      assert forall j :: 0 <= j < b.Length1 ==> t[i][j] == rows[i][j];
    }
  }

  /** The first rows of b hold the values rows. */
  ghost predicate LayerHeld(b: array2<bool>, rows: seq<seq<bool>>)
    reads b
    requires |rows| <= b.Length0 && forall i :: 0 <= i < |rows| ==> |rows[i]| == b.Length1
  {
    forall i, j :: 0 <= i < |rows| && 0 <= j < b.Length1 ==> b[i, j] == rows[i][j]
  }

  /** A layer built by flay, read back from b, obeys the rule of flay as the source states it. */
  lemma LayerMatches(p: array2<bool>, b: array2<bool>)
    requires p.Length0 == b.Length0 + 2 && p.Length1 == b.Length1 + 2
    requires LayerHeld(b, NewLayer(p, b.Length0))
    ensures forall i, j :: 0 <= i < b.Length0 && 0 <= j < b.Length1 ==>
      b[i, j] == Peeled(p[i + 1, j + 1], Hood(p, i, j), Mixed(Hood(p, i, j), b, i, j))
  {
    var rows := NewLayer(p, b.Length0);
    forall i, j | 0 <= i < b.Length0 && 0 <= j < b.Length1
      ensures b[i, j] == Peeled(p[i + 1, j + 1], Hood(p, i, j), Mixed(Hood(p, i, j), b, i, j))
    {
      NewLayerRow(p, b.Length0, i);
      NewRowRule(p, Prev(rows, i), i, b.Length1, j);
      assert New(b, i, j - 1) == At(rows[i], j - 1);
      if i > 0 {
        assert New(b, i - 1, j - 1) == At(rows[i - 1], j - 1);
        assert New(b, i - 1, j) == At(rows[i - 1], j);
        assert New(b, i - 1, j + 1) == At(rows[i - 1], j + 1);
      }
      assert Mixed(Hood(p, i, j), b, i, j) == NewHood(Prev(rows, i), rows[i], j, Hood(p, i, j));
    }
  }

  /**
   * The first loop of flay: builds the new layer in buf row by row and
   * records `rank` for the removed pixels. Returns whether any pixel was
   * removed.
   */
  method BuildLayer(pixels: array2<bool>, buf: array2<bool>, rank: int, ranks: array2<int>) returns (changed: bool)
    requires pixels.Length0 == buf.Length0 + 2 && pixels.Length1 == buf.Length1 + 2
    requires ranks.Length0 == buf.Length0 && ranks.Length1 == buf.Length1 && pixels != buf
    modifies buf, ranks
    ensures LayerHeld(buf, NewLayer(pixels, buf.Length0))
    ensures LayerRanks(ranks, pixels, NewLayer(pixels, buf.Length0), rank, old(Values(ranks)))
    ensures changed == LayerDropped(pixels, NewLayer(pixels, buf.Length0))
  {
    var h := buf.Length0;
    changed := false;
    ghost var rows: seq<seq<bool>> := [];
    ghost var ranks0 := Values(ranks);
    var i := 0;
    while i < h
      invariant 0 <= i <= h && Built(pixels, buf, ranks, i, rows, rank, ranks0, changed)
    {
      var rowChanged;
      rowChanged, rows := LayerRow(pixels, buf, i, rank, ranks, rows, ranks0, changed);
      changed := changed || rowChanged;
      i := i + 1;
    }
  }

  /**
   * The state of the first loop of flay after i rows: buf holds the first
   * i rows of the new layer, ranks records their removed pixels, the
   * rows below keep their old ranks, and `changed` says whether a pixel
   * was removed.
   */
  ghost predicate Built(pixels: array2<bool>, buf: array2<bool>, ranks: array2<int>, i: nat,
                        rows: seq<seq<bool>>, rank: int, ranks0: seq<seq<int>>, changed: bool)
    reads pixels, buf, ranks
  {
    && pixels.Length0 == buf.Length0 + 2 && pixels.Length1 == buf.Length1 + 2 && i <= buf.Length0
    && ranks.Length0 == buf.Length0 && ranks.Length1 == buf.Length1 && Shaped(ranks0, ranks.Length0, ranks.Length1)
    && rows == NewLayer(pixels, i) && LayerHeld(buf, rows)
    && LayerRanks(ranks, pixels, rows, rank, ranks0) && RanksFrom(ranks, i, ranks0)
    && changed == LayerDropped(pixels, rows)
  }

  /** Rows i and below of ranks still hold their old values. */
  ghost predicate RanksFrom(ranks: array2<int>, i: int, ranks0: seq<seq<int>>)
    reads ranks
    requires |ranks0| == ranks.Length0 && forall i :: 0 <= i < |ranks0| ==> |ranks0[i]| == ranks.Length1
  {
    forall i', j :: 0 <= i' < ranks.Length0 && i <= i' && 0 <= j < ranks.Length1 ==> ranks[i', j] == ranks0[i'][j]
  }

  /** One turn of the first loop of flay: row i of the new layer, in buf, with its ranks. */
  method LayerRow(pixels: array2<bool>, buf: array2<bool>, i: int, rank: int, ranks: array2<int>,
                  ghost rows: seq<seq<bool>>, ghost ranks0: seq<seq<int>>, ghost before: bool)
    returns (changed: bool, ghost rows': seq<seq<bool>>)
    requires pixels.Length0 == buf.Length0 + 2 && pixels.Length1 == buf.Length1 + 2
    requires ranks.Length0 == buf.Length0 && ranks.Length1 == buf.Length1 && pixels != buf
    requires |ranks0| == ranks.Length0 && forall i :: 0 <= i < |ranks0| ==> |ranks0[i]| == ranks.Length1
    requires 0 <= i < buf.Length0 && Built(pixels, buf, ranks, i, rows, rank, ranks0, before)
    modifies buf, ranks
    ensures Built(pixels, buf, ranks, i + 1, rows', rank, ranks0, before || changed)
  {
    ghost var row;
    changed, row := FlayRow(pixels, buf, i, rank, ranks, Prev(rows, i));
    LayerStep(pixels, i, rows, row);
    assert LayerRanks(ranks, pixels, rows, rank, ranks0);
    RanksGrow(ranks, pixels, rows, row, rank, ranks0);
    rows' := rows + [row];
  }

  /** The ranks of the first rows and of the next row make the ranks of one row more. */
  lemma RanksGrow(ranks: array2<int>, p: array2<bool>, rows: seq<seq<bool>>, row: seq<bool>, rank: int, ranks0: seq<seq<int>>)
    requires |rows| < ranks.Length0 && |rows| + 3 <= p.Length0 && ranks.Length1 + 2 <= p.Length1
    requires (forall i :: 0 <= i < |rows| ==> |rows[i]| == ranks.Length1) && |row| == ranks.Length1
    requires |ranks0| == ranks.Length0 && forall i :: 0 <= i < |ranks0| ==> |ranks0[i]| == ranks.Length1
    requires LayerRanks(ranks, p, rows, rank, ranks0)
    requires RanksRecorded(ranks, p, |rows|, row, rank, ranks0[|rows|])
    ensures LayerRanks(ranks, p, rows + [row], rank, ranks0)
  {
    var next := rows + [row];
    forall i, j | 0 <= i < |next| && 0 <= j < ranks.Length1
      ensures ranks[i, j] == if p[i + 1, j + 1] && !next[i][j] then rank else ranks0[i][j]
    {
      if i < |rows| {
        assert next[i] == rows[i];
      }
    }
  }

  /** Row i of a layer and the layer of i rows make the layer of i + 1 rows. */
  lemma LayerStep(p: array2<bool>, i: nat, rows: seq<seq<bool>>, row: seq<bool>)
    requires i + 2 < p.Length0 && 2 <= p.Length1
    requires rows == NewLayer(p, i) && row == NewRow(p, Prev(rows, i), i, p.Length1 - 2)
    ensures rows + [row] == NewLayer(p, i + 1)
    ensures LayerDropped(p, rows + [row]) == (LayerDropped(p, rows) || Dropped(p, i, row))
  {
    DroppedGrow(p, rows, row);
  }

  /** A dropped pixel of one row more lies in the first rows or in the new one. */
  lemma DroppedGrow(p: array2<bool>, rows: seq<seq<bool>>, row: seq<bool>)
    requires |rows| + 3 <= p.Length0 && |row| + 2 <= p.Length1
    requires forall i :: 0 <= i < |rows| ==> |rows[i]| + 2 <= p.Length1
    ensures LayerDropped(p, rows + [row]) == (LayerDropped(p, rows) || Dropped(p, |rows|, row))
  {
    var next, n := rows + [row], |rows|;
    if LayerDropped(p, next) {
      var i, j :| 0 <= i < |next| && 0 <= j < |next[i]| && p[i + 1, j + 1] && !next[i][j];
      if i < n {
        assert rows[i] == next[i];
        assert LayerDropped(p, rows);
      } else {
        assert Dropped(p, n, row);
      }
    }
    if LayerDropped(p, rows) {
      var i, j :| 0 <= i < |rows| && 0 <= j < |rows[i]| && p[i + 1, j + 1] && !rows[i][j];
      assert next[i] == rows[i];
    }
    if Dropped(p, n, row) {
      var j :| 0 <= j < |row| && p[n + 1, j + 1] && !row[j];
      assert next[n] == row;
    }
  }

  /** Every cell of an array, as a value. */
  function Values<T>(a: array2<T>): (rows: seq<seq<T>>)
    reads a
    ensures |rows| == a.Length0 && forall i :: 0 <= i < a.Length0 ==> rows[i] == RowValues(a, i)
  {
    seq(a.Length0, i requires 0 <= i < a.Length0 reads a => RowValues(a, i))
  }

  /** Some black pixel of the old layer p is white in the new rows. */
  ghost predicate LayerDropped(p: array2<bool>, rows: seq<seq<bool>>)
    reads p
    requires |rows| + 2 <= p.Length0 && forall i :: 0 <= i < |rows| ==> |rows[i]| + 2 <= p.Length1
  {
    exists i, j :: 0 <= i < |rows| && 0 <= j < |rows[i]| && p[i + 1, j + 1] && !rows[i][j]
  }

  /** The ranks of the first rows: `rank` where the new rows dropped a black pixel, the old value elsewhere. */
  ghost predicate LayerRanks(ranks: array2<int>, p: array2<bool>, rows: seq<seq<bool>>, rank: int, ranks0: seq<seq<int>>)
    reads ranks, p
    requires |rows| <= ranks.Length0 && |rows| + 2 <= p.Length0
    requires ranks.Length1 + 2 <= p.Length1 && forall i :: 0 <= i < |rows| ==> |rows[i]| == ranks.Length1
    requires |ranks0| == ranks.Length0 && forall i :: 0 <= i < |ranks0| ==> |ranks0[i]| == ranks.Length1
  {
    forall i, j :: 0 <= i < |rows| && 0 <= j < ranks.Length1 ==>
      ranks[i, j] == if p[i + 1, j + 1] && !rows[i][j] then rank else ranks0[i][j]
  }

  /** The finished new row above row i, empty for the first row. */
  function Prev(rows: seq<seq<bool>>, i: int): seq<bool>
    requires i <= |rows|
  {
    if i <= 0 then [] else rows[i - 1]
  }

  /** Cell (i, j) of a pattern with margins lies in the margin. */
  predicate Margin(p: array2<bool>, i: int, j: int) {
    i == 0 || j == 0 || i == p.Length0 - 1 || j == p.Length1 - 1
  }

  /** The memcpy at the end of flay: the new layer replaces the interior. */
  method CopyInterior(pixels: array2<bool>, buf: array2<bool>)
    requires pixels.Length0 == buf.Length0 + 2 && pixels.Length1 == buf.Length1 + 2 && pixels != buf
    modifies pixels
    ensures forall i, j :: 0 <= i < buf.Length0 && 0 <= j < buf.Length1 ==> pixels[i + 1, j + 1] == buf[i, j]
    ensures forall i, j :: 0 <= i < pixels.Length0 && 0 <= j < pixels.Length1 && Margin(pixels, i, j) ==>
      pixels[i, j] == old(pixels[i, j])
  {
    var i := 0;
    while i < buf.Length0
      invariant 0 <= i <= buf.Length0
      invariant forall a, b :: 0 <= a < i && 0 <= b < buf.Length1 ==> pixels[a + 1, b + 1] == buf[a, b]
      invariant forall a, b :: 0 <= a < pixels.Length0 && 0 <= b < pixels.Length1 && (Margin(pixels, a, b) || i < a) ==>
        pixels[a, b] == old(pixels[a, b])
    {
      var j := 0;
      while j < buf.Length1
        invariant 0 <= j <= buf.Length1
        invariant forall a, b :: 0 <= a < i && 0 <= b < buf.Length1 ==> pixels[a + 1, b + 1] == buf[a, b]
        invariant forall b :: 0 <= b < j ==> pixels[i + 1, b + 1] == buf[i, b]
        invariant forall a, b :: 0 <= a < pixels.Length0 && 0 <= b < pixels.Length1 &&
                                 (Margin(pixels, a, b) || i + 1 < a || (a == i + 1 && j < b)) ==>
                                   pixels[a, b] == old(pixels[a, b])
      {
        pixels[i + 1, j + 1] := buf[i, j];
        j := j + 1;
      }
      i := i + 1;
    }
  }

  /** A picture of h rows of w values. */
  ghost predicate Shaped<T>(v: seq<seq<T>>, h: int, w: int) {
    |v| == h && forall i :: 0 <= i < h ==> |v[i]| == w
  }

  /** The black pixels of a picture. */
  ghost function BlackCells(v: seq<seq<bool>>): set<(int, int)> {
    set i, j | 0 <= i < |v| && 0 <= j < |v[i]| && v[i][j] :: (i, j)
  }

  /** Some black pixel of before is white in after. */
  ghost predicate Lost(before: seq<seq<bool>>, after: seq<seq<bool>>)
    requires Shaped(after, |before|, if before == [] then 0 else |before[0]|)
    requires Shaped(before, |before|, if before == [] then 0 else |before[0]|)
  {
    exists i, j :: 0 <= i < |before| && 0 <= j < |before[i]| && before[i][j] && !after[i][j]
  }

  /** A picture that only loses black pixels has fewer of them, strictly fewer when it loses one. */
  lemma Shrink(before: seq<seq<bool>>, after: seq<seq<bool>>, h: int, w: int)
    requires Shaped(before, h, w) && Shaped(after, h, w)
    requires forall i, j :: 0 <= i < h && 0 <= j < w && after[i][j] ==> before[i][j]
    ensures BlackCells(after) <= BlackCells(before)
    ensures Lost(before, after) ==> BlackCells(after) < BlackCells(before)
  {
    if Lost(before, after) {
      var i, j :| 0 <= i < |before| && 0 <= j < |before[i]| && before[i][j] && !after[i][j];
      assert (i, j) in BlackCells(before) && (i, j) !in BlackCells(after);
    }
  }

  /**
   * The first part of mdjvu_soften_pattern: the pattern copied into a
   * fresh array with a white margin one pixel wide.
   */
  method WithMargin(pixels: array2<bool>) returns (r: array2<bool>)
    ensures fresh(r) && r.Length0 == pixels.Length0 + 2 && r.Length1 == pixels.Length1 + 2
    ensures forall i, j :: 0 <= i < r.Length0 && 0 <= j < r.Length1 && Margin(r, i, j) ==> !r[i, j]
    ensures forall i, j :: 0 <= i < pixels.Length0 && 0 <= j < pixels.Length1 ==> r[i + 1, j + 1] == pixels[i, j]
  {
    r := new bool[pixels.Length0 + 2, pixels.Length1 + 2]((_, _) => false);
    var i := 0;
    while i < pixels.Length0
      invariant 0 <= i <= pixels.Length0
      invariant forall a, b :: 0 <= a < r.Length0 && 0 <= b < r.Length1 && (Margin(r, a, b) || i < a) ==> !r[a, b]
      invariant forall a, b :: 0 <= a < i && 0 <= b < pixels.Length1 ==> r[a + 1, b + 1] == pixels[a, b]
    {
      var j := 0;
      while j < pixels.Length1
        invariant 0 <= j <= pixels.Length1
        invariant forall a, b ::
          0 <= a < r.Length0 && 0 <= b < r.Length1 && (Margin(r, a, b) || i + 1 < a || (a == i + 1 && j < b)) ==>
          !r[a, b]
        invariant forall a, b :: 0 <= a < i && 0 <= b < pixels.Length1 ==> r[a + 1, b + 1] == pixels[a, b]
        invariant forall b :: 0 <= b < j ==> r[i + 1, b + 1] == pixels[i, b]
      {
        r[i + 1, j + 1] := pixels[i, j];
        j := j + 1;
      }
      i := i + 1;
    }
  }

  /**
   * What the passes of mdjvu_soften_pattern keep true of the pattern t
   * and the ranks k: the pattern only loses black pixels of the original,
   * a pixel has a non-zero rank exactly when it was black and has been
   * removed, and ranks stay below `bound`.
   */
  ghost predicate Peeling(pixels: array2<bool>, t: seq<seq<bool>>, k: seq<seq<int>>, bound: int)
    reads pixels
    requires Shaped(t, pixels.Length0, pixels.Length1) && Shaped(k, pixels.Length0, pixels.Length1)
  {
    forall i, j :: 0 <= i < pixels.Length0 && 0 <= j < pixels.Length1 ==>
      (t[i][j] ==> pixels[i, j]) && (k[i][j] > 0 <==> pixels[i, j] && !t[i][j]) && 0 <= k[i][j] < bound
  }

  /**
   * One pass: pattern t1 only loses pixels of t0, and the ranks k1 are
   * `rank` at the pixels it lost and those of k0 elsewhere.
   */
  ghost predicate Stepped(t0: seq<seq<bool>>, k0: seq<seq<int>>, t1: seq<seq<bool>>, k1: seq<seq<int>>, rank: int, h: int, w: int)
    requires Shaped(t0, h, w) && Shaped(k0, h, w) && Shaped(t1, h, w) && Shaped(k1, h, w)
  {
    forall i, j :: 0 <= i < h && 0 <= j < w ==>
      (t1[i][j] ==> t0[i][j]) && k1[i][j] == if t0[i][j] && !t1[i][j] then rank else k0[i][j]
  }

  /** A pass with rank `passes` keeps Peeling, with one more rank when it lost a pixel. */
  lemma PeelingStep(pixels: array2<bool>, t0: seq<seq<bool>>, k0: seq<seq<int>>, t1: seq<seq<bool>>, k1: seq<seq<int>>, passes: int)
    requires passes >= 1
    requires Shaped(t0, pixels.Length0, pixels.Length1) && Shaped(k0, pixels.Length0, pixels.Length1)
    requires Shaped(t1, pixels.Length0, pixels.Length1) && Shaped(k1, pixels.Length0, pixels.Length1)
    requires Peeling(pixels, t0, k0, passes) && Stepped(t0, k0, t1, k1, passes, pixels.Length0, pixels.Length1)
    ensures Peeling(pixels, t1, k1, if Lost(t0, t1) then passes + 1 else passes)
  {
    var bound := if Lost(t0, t1) then passes + 1 else passes;
    forall i, j | 0 <= i < pixels.Length0 && 0 <= j < pixels.Length1
      ensures (t1[i][j] ==> pixels[i, j]) && (k1[i][j] > 0 <==> pixels[i, j] && !t1[i][j]) && 0 <= k1[i][j] < bound
    {
      if t0[i][j] && !t1[i][j] {
        assert Lost(t0, t1);
      }
    }
  }

  /** The margin of r is white. */
  ghost predicate WhiteMargin(r: array2<bool>)
    reads r
  {
    forall i, j :: 0 <= i < r.Length0 && 0 <= j < r.Length1 && Margin(r, i, j) ==> !r[i, j]
  }

  /**
   * One call of flay from the loop of mdjvu_soften_pattern, with rank
   * `passes`: keeps Peeling, with ranks up to `passes`, and below `passes`
   * when nothing was removed; the black pixels of the pattern shrink,
   * strictly when flay reports a change.
   */
  method Pass(pixels: array2<bool>, r: array2<bool>, buf: array2<bool>, passes: int, ranks: array2<int>)
    returns (changed: bool)
    requires r.Length0 == pixels.Length0 + 2 && r.Length1 == pixels.Length1 + 2
    requires buf.Length0 == pixels.Length0 && buf.Length1 == pixels.Length1 && buf.Length0 > 0 && buf.Length1 > 0
    requires ranks.Length0 == pixels.Length0 && ranks.Length1 == pixels.Length1
    requires r != buf && r != pixels && buf != pixels && passes >= 1
    requires WhiteMargin(r) && Peeling(pixels, Interior(r), Values(ranks), passes)
    modifies r, buf, ranks
    ensures WhiteMargin(r) && Peeling(pixels, Interior(r), Values(ranks), if changed then passes + 1 else passes)
    ensures BlackCells(Interior(r)) <= old(BlackCells(Interior(r)))
    ensures changed ==> BlackCells(Interior(r)) < old(BlackCells(Interior(r)))
  {
    ghost var t0, k0 := Interior(r), Values(ranks);
    changed := Flay(r, buf, passes, ranks);
    Shrink(t0, Interior(r), buf.Length0, buf.Length1);
    PeelingStep(pixels, t0, k0, Interior(r), Values(ranks), passes);
  }

  /**
   * mdjvu_soften_pattern: peels the pattern pass after pass until a pass
   * removes nothing, then paints each pixel: 255 for the pixels that
   * survive every pass, otherwise colors[passes - rank], where colors[k]
   * is the shade `tone(passes, k)` for k < passes and colors[passes] = 0.
   * Returns the number of passes, the surviving pixels and the ranks.
   */
  method SoftenPattern(pixels: array2<bool>, result: array2<int>, tone: (nat, nat) -> int)
    returns (ghost passes: nat, ghost frame: seq<seq<bool>>, ghost rank: seq<seq<int>>)
    requires pixels.Length0 > 0 && pixels.Length1 > 0
    requires result.Length0 == pixels.Length0 && result.Length1 == pixels.Length1
    modifies result
    ensures passes >= 1 && |frame| == |rank| == pixels.Length0
    ensures forall i :: 0 <= i < pixels.Length0 ==> |frame[i]| == |rank[i]| == pixels.Length1
    ensures forall i, j :: 0 <= i < pixels.Length0 && 0 <= j < pixels.Length1 ==>
      && (frame[i][j] ==> pixels[i, j])
      && (rank[i][j] > 0 <==> pixels[i, j] && !frame[i][j])
      && 0 <= rank[i][j] < passes
      && result[i, j] == if frame[i][j] then 255 else Colour(tone, passes, passes - rank[i][j])
  {
    var h, w := pixels.Length0, pixels.Length1;
    var r := WithMargin(pixels);
    var ranks := new int[h, w]((_, _) => 0);
    var p := Peel(pixels, r, ranks);
    var colors := Colours(tone, p);
    passes, frame, rank := p, Interior(r), Values(ranks);
    RanksBelow(pixels, frame, ranks, passes);
    Paint(pixels, r, ranks, colors, p, result);
  }

  /**
   * The loop of mdjvu_soften_pattern: calls flay with ranks 1, 2, ...
   * until a pass removes nothing, and returns the number of calls. It ends
   * because every pass that reports a change removes a black pixel and
   * none adds one.
   */
  method Peel(pixels: array2<bool>, r: array2<bool>, ranks: array2<int>) returns (passes: nat)
    requires r.Length0 == pixels.Length0 + 2 && r.Length1 == pixels.Length1 + 2
    requires ranks.Length0 == pixels.Length0 && ranks.Length1 == pixels.Length1
    requires pixels.Length0 > 0 && pixels.Length1 > 0 && r != pixels
    requires WhiteMargin(r) && Peeling(pixels, Interior(r), Values(ranks), 1)
    modifies r, ranks
    ensures passes >= 1 && WhiteMargin(r) && Peeling(pixels, Interior(r), Values(ranks), passes)
  {
    var buf := new bool[pixels.Length0, pixels.Length1];
    passes := 1;
    var more := Pass(pixels, r, buf, passes, ranks);
    while more
      invariant passes >= 1 && WhiteMargin(r) && Peeling(pixels, Interior(r), Values(ranks), if more then passes + 1 else passes)
      decreases BlackCells(Interior(r)), more
    {
      passes := passes + 1;
      more := Pass(pixels, r, buf, passes, ranks);
    }
  }

  /** Ranks kept by Peeling are in range for the colour table. */
  lemma RanksBelow(pixels: array2<bool>, t: seq<seq<bool>>, ranks: array2<int>, bound: int)
    requires ranks.Length0 == pixels.Length0 && ranks.Length1 == pixels.Length1
    requires Shaped(t, pixels.Length0, pixels.Length1) && Peeling(pixels, t, Values(ranks), bound)
    ensures forall i, j :: 0 <= i < ranks.Length0 && 0 <= j < ranks.Length1 ==> 0 <= ranks[i, j] < bound
  {
    var k := Values(ranks);
    forall i, j | 0 <= i < ranks.Length0 && 0 <= j < ranks.Length1
      ensures 0 <= ranks[i, j] < bound
    {
      assert k[i][j] == ranks[i, j];
    }
  }

  /** The pattern held inside the margin of r, as rows. */
  ghost function Interior(r: array2<bool>): (rows: seq<seq<bool>>)
    reads r
    requires r.Length0 >= 2 && r.Length1 >= 2
    ensures |rows| == r.Length0 - 2
    ensures forall i :: 0 <= i < |rows| ==> |rows[i]| == r.Length1 - 2 && forall j :: 0 <= j < |rows[i]| ==> rows[i][j] == r[i + 1, j + 1]
  {
    seq(r.Length0 - 2, i requires 0 <= i < r.Length0 - 2 reads r => seq(r.Length1 - 2, j requires 0 <= j < r.Length1 - 2 reads r => r[i + 1, j + 1]))
  }

  /** Entry k of the colour table of a pattern peeled in `passes` passes. */
  function Colour(tone: (nat, nat) -> int, passes: nat, k: nat): int {
    if k == passes then 0 else tone(passes, k)
  }

  /** The colour table: passes + 1 entries, the last one 0. */
  method Colours(tone: (nat, nat) -> int, passes: nat) returns (colors: array<int>)
    ensures fresh(colors) && colors.Length == passes + 1
    ensures forall k :: 0 <= k <= passes ==> colors[k] == Colour(tone, passes, k)
  {
    colors := new int[passes + 1];
    var k := 0;
    while k < passes
      invariant 0 <= k <= passes
      invariant forall k' :: 0 <= k' < k ==> colors[k'] == Colour(tone, passes, k')
    {
      colors[k] := tone(passes, k);
      k := k + 1;
    }
    colors[passes] := 0;
  }

  /** The last loop of mdjvu_soften_pattern: 255 for a surviving pixel, else the colour of its rank. */
  method Paint(pixels: array2<bool>, r: array2<bool>, ranks: array2<int>, colors: array<int>, passes: nat, result: array2<int>)
    requires r.Length0 == pixels.Length0 + 2 && r.Length1 == pixels.Length1 + 2
    requires ranks.Length0 == result.Length0 == pixels.Length0 && ranks.Length1 == result.Length1 == pixels.Length1
    requires colors.Length == passes + 1 && ranks != result
    requires forall i, j :: 0 <= i < ranks.Length0 && 0 <= j < ranks.Length1 ==> 0 <= ranks[i, j] < passes + 1
    modifies result
    ensures forall i, j :: 0 <= i < result.Length0 && 0 <= j < result.Length1 ==>
      result[i, j] == if r[i + 1, j + 1] then 255 else colors[passes - ranks[i, j]]
  {
    var i := 0;
    while i < result.Length0
      invariant 0 <= i <= result.Length0
      invariant forall a, b :: 0 <= a < i && 0 <= b < result.Length1 ==>
        result[a, b] == if r[a + 1, b + 1] then 255 else colors[passes - ranks[a, b]]
    {
      var j := 0;
      while j < result.Length1
        invariant 0 <= j <= result.Length1
        invariant forall a, b :: 0 <= a < i && 0 <= b < result.Length1 ==>
          result[a, b] == if r[a + 1, b + 1] then 255 else colors[passes - ranks[a, b]]
        invariant forall b :: 0 <= b < j ==>
          result[i, b] == if r[i + 1, b + 1] then 255 else colors[passes - ranks[i, b]]
      {
        if r[i + 1, j + 1] {
          result[i, j] := 255;
        } else {
          result[i, j] := colors[passes - ranks[i, j]];
        }
        j := j + 1;
      }
      i := i + 1;
    }
  }
}
