/**
 * Byte-per-pixel bitmap helpers of the matcher (src/matcher/bitmaps.c).
 *
 * A bitmap is a rectangle of unsigned bytes, one byte per pixel, non-zero
 * meaning black. Row pointers become a two-dimensional array whose rows
 * may be longer than the width a helper is given. A bitmap "with margins"
 * of w x h pixels is an array of (h + 2) x (w + 2) bytes where pixel
 * (y, x) sits at [y + 1, x + 1]: the negative row and column offsets of
 * the source become an index offset of one.
 */
module Bitmaps {

  newtype byte = x: int | 0 <= x < 256

  /** A pixel normalised to 0 or 1: black becomes 1, white stays 0. */
  function Bit(b: byte): (r: byte)
    ensures r <= 1
    ensures r == 0 <==> b == 0
  {
    if b != 0 then 1 else 0
  }

  /**
   * One pixel of invert_bitmap_old. With the flag set the pixel is first
   * normalised (non-zero becomes 0, zero becomes 1); without it the byte
   * is 1 - x in unsigned char arithmetic, which wraps below zero.
   */
  function Flip(b: byte, normalise: bool): (r: byte)
    ensures normalise ==> r <= 1 && (r == 1 <==> b == 0)
    ensures !normalise ==> (r as int + b as int) % 256 == 1
  {
    if normalise then (if b != 0 then 0 else 1)
    else ((1 - b as int) % 256) as byte
  }

  /** Normalising is idempotent: a 0/1 pixel is its own normal form. */
  lemma BitIdempotent(b: byte)
    ensures Bit(Bit(b)) == Bit(b)
    ensures b <= 1 ==> Bit(b) == b
  {
  }

  /**
   * Inversion is an involution on 0/1 data in both modes, and the raw
   * 1 - x form is one on every byte; inverting twice with normalisation
   * yields the normalised pixel.
   */
  lemma {:induction false} FlipTwice(b: byte, normalise: bool)
    ensures b <= 1 ==> Flip(Flip(b, normalise), normalise) == b
    ensures !normalise ==> Flip(Flip(b, false), false) == b
    ensures Flip(Flip(b, true), true) == Bit(b)
  {
    var r := Flip(b, false);
    assert (r as int + b as int) % 256 == 1;
    var s := Flip(r, false);
    assert (s as int + r as int) % 256 == 1;
    assert s == b by {
      assert (s as int - b as int) % 256 == 0;
    }
  }

  /** Whether [i, j] lies in the one-pixel frame of an array with margins. */
  predicate InFrame(r: array2<byte>, i: int, j: int) {
    i == 0 || i == r.Length0 - 1 || j == 0 || j == r.Length1 - 1
  }

  /** Every byte of the one-pixel frame is 0. */
  ghost predicate WhiteFrame(r: array2<byte>)
    reads r
  {
    forall i, j :: 0 <= i < r.Length0 && 0 <= j < r.Length1 && InFrame(r, i, j) ==> r[i, j] == 0
  }

  /**
   * The frame-clearing part of allocate_bitmap_with_white_margins and
   * provide_margins: the top and bottom rows and the left and right
   * margin bytes become 0; the interior is untouched.
   */
  method ClearFrame(r: array2<byte>)
    requires r.Length0 >= 2 && r.Length1 >= 2
    modifies r
    ensures WhiteFrame(r)
    ensures forall i, j :: 0 <= i < r.Length0 && 0 <= j < r.Length1 && !InFrame(r, i, j) ==> r[i, j] == old(r[i, j])
  {
    var bottom, right := r.Length0 - 1, r.Length1 - 1;
    var x := 0;
    while x <= right
      invariant 0 <= x <= right + 1
      invariant forall j :: 0 <= j < x ==> r[0, j] == 0
      invariant forall j :: 0 <= j < x ==> r[bottom, j] == 0
      invariant forall i, j :: 0 < i < bottom && 0 <= j < r.Length1 ==> r[i, j] == old(r[i, j])
    {
      r[0, x] := 0;
      r[bottom, x] := 0;
      x := x + 1;
    }
    var y := 1;
    while y < bottom
      invariant 1 <= y <= bottom
      invariant forall j :: 0 <= j <= right ==> r[0, j] == 0
      invariant forall j :: 0 <= j <= right ==> r[bottom, j] == 0
      invariant forall i :: 1 <= i < y ==> r[i, 0] == 0
      invariant forall i :: 1 <= i < y ==> r[i, right] == 0
      invariant forall i, j :: 0 < i < bottom && 0 <= j < r.Length1 && !InFrame(r, i, j) ==> r[i, j] == old(r[i, j])
      invariant forall i, j :: y <= i < bottom && 0 <= j < r.Length1 ==> r[i, j] == old(r[i, j])
    {
      r[y, 0] := 0;
      r[y, right] := 0;
      y := y + 1;
    }
    forall i, j | 0 <= i < r.Length0 && 0 <= j < r.Length1 && InFrame(r, i, j)
      ensures r[i, j] == 0
    {
      if 0 < i < bottom {
        assert j == 0 || j == right;
      }
    }
  }

  /**
   * allocate_bitmap_with_white_margins: a fresh (h + 2) x (w + 2) array
   * whose frame is white. The allocator's uninitialised contents are the
   * parameter `junk`; the interior keeps them.
   */
  method AllocateWithWhiteMargins(w: nat, h: nat, junk: (int, int) -> byte) returns (r: array2<byte>)
    ensures fresh(r) && r.Length0 == h + 2 && r.Length1 == w + 2
    ensures WhiteFrame(r)
    ensures forall i, j :: 0 < i <= h && 0 < j <= w ==> r[i, j] == junk(i, j)
  {
    r := new byte[h + 2, w + 2]((i: nat, j: nat) => junk(i, j));
    ClearFrame(r);
  }

  /**
   * provide_margins: a fresh bitmap with margins whose interior is the
   * w x h source (each pixel normalised to 0/1 when asked) and whose
   * frame is white.
   */
  method ProvideMargins(pixels: array2<byte>, w: nat, h: nat, normalise: bool, junk: (int, int) -> byte)
    returns (r: array2<byte>)
    requires h <= pixels.Length0 && w <= pixels.Length1
    ensures fresh(r) && r.Length0 == h + 2 && r.Length1 == w + 2
    ensures WhiteFrame(r)
    ensures forall y, x :: 0 <= y < h && 0 <= x < w ==>
      r[y + 1, x + 1] == if normalise then Bit(pixels[y, x]) else pixels[y, x]
  {
    r := new byte[h + 2, w + 2]((i: nat, j: nat) => junk(i, j));
    ClearFrame(r);
    var y := 0;
    while y < h
      invariant 0 <= y <= h
      invariant WhiteFrame(r)
      invariant forall a, x :: 0 <= a < y && 0 <= x < w ==>
        r[a + 1, x + 1] == if normalise then Bit(pixels[a, x]) else pixels[a, x]
    {
      var x := 0;
      while x < w
        invariant 0 <= x <= w
        invariant WhiteFrame(r)
        invariant forall a, c :: 0 <= a < y && 0 <= c < w ==>
          r[a + 1, c + 1] == if normalise then Bit(pixels[a, c]) else pixels[a, c]
        invariant forall c :: 0 <= c < x ==> r[y + 1, c + 1] == if normalise then Bit(pixels[y, c]) else pixels[y, c]
      {
        r[y + 1, x + 1] := if normalise then Bit(pixels[y, x]) else pixels[y, x];
        x := x + 1;
      }
      y := y + 1;
    }
  }

  /** Whether a cell lies in the first h rows and first n bytes of each. */
  predicate InCorner(i: int, j: int, h: int, n: int) {
    0 <= i < h && 0 <= j < n
  }

  /**
   * The row-by-row memcpy of assign_bitmap and assign_unpacked_bitmap:
   * the first n bytes of each of the first h rows of dst become those of
   * src; every other byte of dst is unchanged.
   */
  method CopyRows(dst: array2<byte>, src: array2<byte>, n: nat, h: nat)
    requires h <= dst.Length0 && h <= src.Length0 && n <= dst.Length1 && n <= src.Length1
    modifies dst
    ensures forall i, j :: InCorner(i, j, h, n) ==> dst[i, j] == old(src[i, j])
    ensures forall i, j :: 0 <= i < dst.Length0 && 0 <= j < dst.Length1 && !InCorner(i, j, h, n) ==>
      dst[i, j] == old(dst[i, j])
  {
    var i := 0;
    while i < h
      invariant 0 <= i <= h
      invariant forall a, j :: InCorner(a, j, i, n) ==> dst[a, j] == old(src[a, j])
      invariant forall a, j :: 0 <= a < dst.Length0 && 0 <= j < dst.Length1 && !InCorner(a, j, i, n) ==>
        dst[a, j] == old(dst[a, j])
      invariant dst != src ==> forall a, j :: 0 <= a < src.Length0 && 0 <= j < src.Length1 ==> src[a, j] == old(src[a, j])
      invariant forall a, j :: i <= a < h && 0 <= j < n ==> src[a, j] == old(src[a, j])
    {
      var j := 0;
      while j < n
        invariant 0 <= j <= n
        invariant forall a, c :: InCorner(a, c, i, n) ==> dst[a, c] == old(src[a, c])
        invariant forall c :: 0 <= c < j ==> dst[i, c] == old(src[i, c])
        invariant forall a, c ::
          (0 <= a < dst.Length0 && 0 <= c < dst.Length1 && !InCorner(a, c, i, n) && !(a == i && c < j)) ==>
            dst[a, c] == old(dst[a, c])
        invariant dst != src ==> forall a, c :: 0 <= a < src.Length0 && 0 <= c < src.Length1 ==> src[a, c] == old(src[a, c])
        invariant forall a, c :: i < a < h && 0 <= c < n ==> src[a, c] == old(src[a, c])
        invariant forall c :: j <= c < n ==> src[i, c] == old(src[i, c])
      {
        dst[i, j] := src[i, j];
        j := j + 1;
      }
      i := i + 1;
    }
  }

  /** assign_bitmap: copies w bytes of each of the h rows. */
  method AssignBitmap(dst: array2<byte>, src: array2<byte>, w: nat, h: nat)
    requires h <= dst.Length0 && h <= src.Length0 && w <= dst.Length1 && w <= src.Length1
    modifies dst
    ensures forall i, j :: InCorner(i, j, h, w) ==> dst[i, j] == old(src[i, j])
    ensures forall i, j :: 0 <= i < dst.Length0 && 0 <= j < dst.Length1 && !InCorner(i, j, h, w) ==>
      dst[i, j] == old(dst[i, j])
  {
    CopyRows(dst, src, w, h);
  }

  /** Bytes in a packed row of w pixels, eight to a byte: (w + 7) >> 3. */
  function PackedRowSize(w: nat): (n: nat)
    ensures 8 * n >= w && 8 * (n - 1) < w
  {
    (w + 7) / 8
  }

  /** assign_unpacked_bitmap: copies the (w + 7) >> 3 bytes of each packed row. */
  method AssignUnpackedBitmap(dst: array2<byte>, src: array2<byte>, w: nat, h: nat)
    requires h <= dst.Length0 && h <= src.Length0
    requires PackedRowSize(w) <= dst.Length1 && PackedRowSize(w) <= src.Length1
    modifies dst
    ensures forall i, j :: InCorner(i, j, h, PackedRowSize(w)) ==> dst[i, j] == old(src[i, j])
    ensures forall i, j :: 0 <= i < dst.Length0 && 0 <= j < dst.Length1 && !InCorner(i, j, h, PackedRowSize(w)) ==>
      dst[i, j] == old(dst[i, j])
  {
    CopyRows(dst, src, PackedRowSize(w), h);
  }

  /** clear_bitmap: the first w bytes of each of the h rows become 0. */
  method ClearBitmap(pixels: array2<byte>, w: nat, h: nat)
    requires h <= pixels.Length0 && w <= pixels.Length1
    modifies pixels
    ensures forall i, j :: InCorner(i, j, h, w) ==> pixels[i, j] == 0
    ensures forall i, j :: 0 <= i < pixels.Length0 && 0 <= j < pixels.Length1 && !InCorner(i, j, h, w) ==>
      pixels[i, j] == old(pixels[i, j])
  {
    var i := 0;
    while i < h
      invariant 0 <= i <= h
      invariant forall a, j :: InCorner(a, j, i, w) ==> pixels[a, j] == 0
      invariant forall a, j :: 0 <= a < pixels.Length0 && 0 <= j < pixels.Length1 && !InCorner(a, j, i, w) ==>
        pixels[a, j] == old(pixels[a, j])
    {
      var j := 0;
      while j < w
        invariant 0 <= j <= w
        invariant forall a, c :: InCorner(a, c, i, w) ==> pixels[a, c] == 0
        invariant forall c :: 0 <= c < j ==> pixels[i, c] == 0
        invariant forall a, c ::
          (0 <= a < pixels.Length0 && 0 <= c < pixels.Length1 && !InCorner(a, c, i, w) && !(a == i && c < j)) ==>
            pixels[a, c] == old(pixels[a, c])
      {
        pixels[i, j] := 0;
        j := j + 1;
      }
      i := i + 1;
    }
  }

  /** The new value of one pixel in make_bitmap_0_or_1 or invert_bitmap_old. */
  function Rewrite(b: byte, invert: bool, normalise: bool): byte {
    if invert then Flip(b, normalise) else Bit(b)
  }

  /**
   * The per-pixel rewrite loop shared by make_bitmap_0_or_1 and
   * invert_bitmap_old: each of the first w bytes of the first h rows
   * becomes Flip or Bit of its old value, as `invert` and `normalise`
   * select; other bytes are unchanged.
   */

  method MapPixels(pixels: array2<byte>, w: nat, h: nat, invert: bool, normalise: bool)
    requires h <= pixels.Length0 && w <= pixels.Length1
    modifies pixels
    ensures forall i, j :: InCorner(i, j, h, w) ==> pixels[i, j] == Rewrite(old(pixels[i, j]), invert, normalise)
    ensures forall i, j :: 0 <= i < pixels.Length0 && 0 <= j < pixels.Length1 && !InCorner(i, j, h, w) ==>
      pixels[i, j] == old(pixels[i, j])
  {
    var i := 0;
    while i < h
      invariant 0 <= i <= h
      invariant forall a, j :: InCorner(a, j, i, w) ==> pixels[a, j] == Rewrite(old(pixels[a, j]), invert, normalise)
      invariant forall a, j :: 0 <= a < pixels.Length0 && 0 <= j < pixels.Length1 && !InCorner(a, j, i, w) ==>
        pixels[a, j] == old(pixels[a, j])
    {
      var j := 0;
      while j < w
        invariant 0 <= j <= w
        invariant forall a, c :: InCorner(a, c, i, w) ==> pixels[a, c] == Rewrite(old(pixels[a, c]), invert, normalise)
        invariant forall c :: 0 <= c < j ==> pixels[i, c] == Rewrite(old(pixels[i, c]), invert, normalise)
        invariant forall a, c ::
          (0 <= a < pixels.Length0 && 0 <= c < pixels.Length1 && !InCorner(a, c, i, w) && !(a == i && c < j)) ==>
            pixels[a, c] == old(pixels[a, c])
      {
        pixels[i, j] := Rewrite(pixels[i, j], invert, normalise);
        j := j + 1;
      }
      i := i + 1;
    }
  }

  /** make_bitmap_0_or_1: every pixel of the w x h corner becomes 1 iff it was non-zero. */
  method MakeBitmap0Or1(pixels: array2<byte>, w: nat, h: nat)
    requires h <= pixels.Length0 && w <= pixels.Length1
    modifies pixels
    ensures forall i, j :: InCorner(i, j, h, w) ==> pixels[i, j] == Bit(old(pixels[i, j]))
    ensures forall i, j :: 0 <= i < pixels.Length0 && 0 <= j < pixels.Length1 && !InCorner(i, j, h, w) ==>
      pixels[i, j] == old(pixels[i, j])
  {
    MapPixels(pixels, w, h, false, false);
  }

  /** invert_bitmap_old: every pixel of the w x h corner is inverted as Flip describes. */
  method InvertBitmapOld(pixels: array2<byte>, w: nat, h: nat, normalise: bool)
    requires h <= pixels.Length0 && w <= pixels.Length1
    modifies pixels
    ensures forall i, j :: InCorner(i, j, h, w) ==> pixels[i, j] == Flip(old(pixels[i, j]), normalise)
    ensures forall i, j :: 0 <= i < pixels.Length0 && 0 <= j < pixels.Length1 && !InCorner(i, j, h, w) ==>
      pixels[i, j] == old(pixels[i, j])
  {
    MapPixels(pixels, w, h, true, normalise);
  }

  /** The 4-neighbours of pixel (y, x) of a bitmap with margins, summed as bytes. */
  function Degree4(p: array2<byte>, y: int, x: int): (d: int)
    reads p
    requires 0 <= y && y + 2 < p.Length0 && 0 <= x && x + 2 < p.Length1
    ensures 0 <= d <= 4 * 255
  {
    p[y, x + 1] as int + p[y + 2, x + 1] as int + p[y + 1, x] as int + p[y + 1, x + 2] as int
  }

  /** The 8-neighbours of pixel (y, x) of a bitmap with margins, summed as bytes. */
  function Degree8(p: array2<byte>, y: int, x: int): (d: int)
    reads p
    requires 0 <= y && y + 2 < p.Length0 && 0 <= x && x + 2 < p.Length1
    ensures Degree4(p, y, x) <= d <= Degree4(p, y, x) + 4 * 255
  {
    Degree4(p, y, x) + p[y, x] as int + p[y, x + 2] as int + p[y + 2, x] as int + p[y + 2, x + 2] as int
  }

  /**
   * One result byte of strip_endpoints: set to 1 at a black pixel whose
   * neighbour count is not 1, left as it was everywhere else. A result
   * pixel is never cleared.
   */
  function Strip(pixel: byte, degree: int, before: byte): (after: byte)
    ensures after != before ==> after == 1
    ensures before != 0 ==> after != 0
    ensures after == 1 <==> (pixel != 0 && degree != 1) || before == 1
  {
    if pixel != 0 && degree != 1 then 1 else before
  }

  /** The neighbour count strip_endpoints_4 or strip_endpoints_8 uses. */
  function Degree(p: array2<byte>, y: int, x: int, eight: bool): int
    reads p
    requires 0 <= y && y + 2 < p.Length0 && 0 <= x && x + 2 < p.Length1
  {
    if eight then Degree8(p, y, x) else Degree4(p, y, x)
  }

  /**
   * strip_endpoints_4 and strip_endpoints_8: for every pixel of the w x h
   * bitmap with margins `pixels`, result[y, x] becomes Strip of the pixel,
   * its neighbour count and the old result byte; other result bytes are
   * unchanged. The source asserts that the two bitmaps differ.
   */
  method StripEndpoints(result: array2<byte>, pixels: array2<byte>, w: nat, h: nat, eight: bool)
    requires result != pixels
    requires h + 2 == pixels.Length0 && w + 2 == pixels.Length1
    requires h <= result.Length0 && w <= result.Length1
    modifies result
    ensures forall y, x :: InCorner(y, x, h, w) ==>
      result[y, x] == Strip(pixels[y + 1, x + 1], Degree(pixels, y, x, eight), old(result[y, x]))
    ensures forall y, x :: 0 <= y < result.Length0 && 0 <= x < result.Length1 && !InCorner(y, x, h, w) ==>
      result[y, x] == old(result[y, x])
  {
    var y := 0;
    while y < h
      invariant 0 <= y <= h
      invariant forall a, x :: InCorner(a, x, y, w) ==>
        result[a, x] == Strip(pixels[a + 1, x + 1], Degree(pixels, a, x, eight), old(result[a, x]))
      invariant forall a, x :: 0 <= a < result.Length0 && 0 <= x < result.Length1 && !InCorner(a, x, y, w) ==>
        result[a, x] == old(result[a, x])
    {
      var x := 0;
      while x < w
        invariant 0 <= x <= w
        invariant forall a, c :: InCorner(a, c, y, w) ==>
          result[a, c] == Strip(pixels[a + 1, c + 1], Degree(pixels, a, c, eight), old(result[a, c]))
        invariant forall c :: 0 <= c < x ==>
          result[y, c] == Strip(pixels[y + 1, c + 1], Degree(pixels, y, c, eight), old(result[y, c]))
        invariant forall a, c ::
          (0 <= a < result.Length0 && 0 <= c < result.Length1 && !InCorner(a, c, y, w) && !(a == y && c < x)) ==>
            result[a, c] == old(result[a, c])
      {
        if pixels[y + 1, x + 1] != 0 {
          var degree := Degree(pixels, y, x, eight);
          if degree != 1 {
            result[y, x] := 1;
          }
        }
        x := x + 1;
      }
      y := y + 1;
    }
  }
}
