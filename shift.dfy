/**
 * natural_image_vse.compute_shifted_image: four slice copies from an
 * sx-by-sy image into a zero array, and the wrap-around shift they were
 * meant to make.
 */
module Shift {

  /** A pixel position. */
  datatype Pixel = Pixel(row: int, col: int)

  /**
   * The pixel of the image that compute_shifted_image copies into (r, c)
   * once all four copies of lines 1194-1197 are done; a later copy wins
   * where two overlap.
   */
  function Source(sx: nat, sy: nat, ix: nat, iy: nat, r: nat, c: nat): Pixel
  {
    if r >= ix && c >= iy then Pixel(r - ix, c - iy)
    else if r < ix && c >= iy then Pixel(r + sx - ix, c)
    else if r >= ix then Pixel(r, c + sy - iy)
    else Pixel(r + sx - ix, c + sy - iy)
  }

  /** The pixel a wrap-around shift by (ix, iy) copies into (r, c). */
  function Rolled(sx: nat, sy: nat, ix: nat, iy: nat, r: nat, c: nat): (p: Pixel)
    requires 0 < sx && 0 < sy
    ensures 0 <= p.row < sx && 0 <= p.col < sy
  {
    Pixel((r - ix) % sx, (c - iy) % sy)
  }

  /** Every copied pixel lies inside the image. */
  lemma {:induction false} SourceInside(sx: nat, sy: nat, ix: nat, iy: nat, r: nat, c: nat)
    requires ix <= sx && iy <= sy && r < sx && c < sy
    ensures var p := Source(sx, sy, ix, iy, r, c); 0 <= p.row < sx && 0 <= p.col < sy
  {
  }

  /**
   * The four copies make a wrap-around shift exactly when the shift is
   * along one axis only, or is the whole image in both.
   */
  lemma {:induction false} ShiftIsRollIff(sx: nat, sy: nat, ix: nat, iy: nat)
    requires 0 < sx && 0 < sy && ix <= sx && iy <= sy
    ensures (forall r, c :: 0 <= r < sx && 0 <= c < sy ==> Source(sx, sy, ix, iy, r, c) == Rolled(sx, sy, ix, iy, r, c))
      <==> (ix == 0 || iy == 0 || (ix == sx && iy == sy))
  {
    if ix == 0 || iy == 0 || (ix == sx && iy == sy) {
      forall r, c | 0 <= r < sx && 0 <= c < sy ensures Source(sx, sy, ix, iy, r, c) == Rolled(sx, sy, ix, iy, r, c) {
        RollQuadrant(sx, sy, ix, iy, r, c);
      }
    } else if ix < sx {
      // the band of rows from ix down, left of iy: the row is not shifted
      assert Source(sx, sy, ix, iy, ix, 0) != Rolled(sx, sy, ix, iy, ix, 0) by {
        ModSmall(0, sx);
      }
    } else {
      // the band of rows above ix, right of iy: the column is not shifted
      assert Source(sx, sy, ix, iy, 0, iy) != Rolled(sx, sy, ix, iy, 0, iy) by {
        ModSmall(0, sy);
      }
    }
  }

  lemma {:induction false} ModSmall(a: int, n: int)
    requires 0 <= a < n
    ensures a % n == a
  {
  }

  lemma {:induction false} ModWrap(a: int, n: int)
    requires 0 < n && -n <= a < 0
    ensures a % n == a + n
  {
  }

  /** Each quadrant of a one-axis (or full) shift agrees with the roll. */
  lemma {:induction false} RollQuadrant(sx: nat, sy: nat, ix: nat, iy: nat, r: nat, c: nat)
    requires 0 < sx && 0 < sy && ix <= sx && iy <= sy && r < sx && c < sy
    requires ix == 0 || iy == 0 || (ix == sx && iy == sy)
    ensures Source(sx, sy, ix, iy, r, c) == Rolled(sx, sy, ix, iy, r, c)
  {
    RollIsBlocks(sx, sy, ix, iy, r, c);
  }

  /** A 2-by-2 image shifted by (1, 1): pixel (0, 1) comes from (1, 1), not from (1, 0) as a roll would take it. */
  lemma {:induction false} DiagonalShiftExample()
    ensures Source(2, 2, 1, 1, 0, 1) == Pixel(1, 1)
    ensures Rolled(2, 2, 1, 1, 0, 1) == Pixel(1, 0)
  {
  }

  /** Inside the image, the roll takes each quadrant from the opposite corner. */
  lemma {:induction false} RollIsBlocks(sx: nat, sy: nat, ix: nat, iy: nat, r: nat, c: nat)
    requires 0 < sx && 0 < sy && ix <= sx && iy <= sy && r < sx && c < sy
    ensures Rolled(sx, sy, ix, iy, r, c) == RollBlocks(sx, sy, ix, iy, r, c)
  {
    if r >= ix { ModSmall(r - ix, sx); } else { ModWrap(r - ix, sx); }
    if c >= iy { ModSmall(c - iy, sy); } else { ModWrap(c - iy, sy); }
  }

  /** The roll the copies were meant to make is undone by the complementary roll. */
  lemma {:induction false} RollRoundTrip(sx: nat, sy: nat, ix: nat, iy: nat, r: nat, c: nat)
    requires 0 < sx && 0 < sy && ix <= sx && iy <= sy && r < sx && c < sy
    ensures var p := Rolled(sx, sy, sx - ix, sy - iy, r, c);
      Rolled(sx, sy, ix, iy, p.row, p.col) == Pixel(r, c)
  {
    RollIsBlocks(sx, sy, sx - ix, sy - iy, r, c);
    var p := Rolled(sx, sy, sx - ix, sy - iy, r, c);
    RollIsBlocks(sx, sy, ix, iy, p.row, p.col);
  }

  /**
   * One slice assignment of compute_shifted_image: out[r, c] := img[r + dr,
   * c + dc] over rows [r0, r1) and columns [c0, c1), everything else as it was.
   */
  method CopyBlock(out: array2<real>, img: array2<real>, r0: nat, r1: nat, c0: nat, c1: nat, dr: int, dc: int)
    requires out != img
    requires r0 <= r1 <= out.Length0 && c0 <= c1 <= out.Length1
    requires r0 < r1 && c0 < c1 ==> 0 <= r0 + dr && r1 + dr <= img.Length0 && 0 <= c0 + dc && c1 + dc <= img.Length1
    modifies out
    ensures forall r, c :: 0 <= r < out.Length0 && 0 <= c < out.Length1 ==>
      out[r, c] == if r0 <= r < r1 && c0 <= c < c1 then img[r + dr, c + dc] else old(out[r, c])
  {
    var r := r0;
    while r < r1
      invariant r0 <= r <= r1
      invariant forall i, j :: 0 <= i < out.Length0 && 0 <= j < out.Length1 ==>
        out[i, j] == if r0 <= i < r && c0 <= j < c1 then img[i + dr, j + dc] else old(out[i, j])
    {
      var c := c0;
      while c < c1
        invariant c0 <= c <= c1
        invariant forall i, j :: 0 <= i < out.Length0 && 0 <= j < out.Length1 ==>
          out[i, j] == if (r0 <= i < r && c0 <= j < c1) || (i == r && c0 <= j < c) then img[i + dr, j + dc] else old(out[i, j])
      {
        out[r, c] := img[r + dr, c + dc];
        c := c + 1;
      }
      r := r + 1;
    }
  }

  /**
   * compute_shifted_image (lines 1184-1198): a fresh array of zeros, then the
   * four copies in the order of the source; every output pixel holds the
   * image pixel Source names.
   */
  method ComputeShiftedImage(img: array2<real>, ix: nat, iy: nat) returns (out: array2<real>)
    requires ix <= img.Length0 && iy <= img.Length1
    ensures fresh(out) && out.Length0 == img.Length0 && out.Length1 == img.Length1
    ensures forall r: nat, c: nat :: r < out.Length0 && c < out.Length1 ==>
      var p := Source(img.Length0, img.Length1, ix, iy, r, c); out[r, c] == img[p.row, p.col]
  {
    var sx, sy := img.Length0, img.Length1;
    out := new real[sx, sy]((r, c) => 0.0);
    CopyBlock(out, img, ix, sx, iy, sy, -(ix as int), -(iy as int));
    CopyBlock(out, img, 0, ix, 0, sy, sx - ix, 0);
    CopyBlock(out, img, 0, sx, 0, iy, 0, sy - iy);
    CopyBlock(out, img, 0, ix, 0, iy, sx - ix, sy - iy);
  }

  /** The wrap-around shift the saccade translation calls for. */
  method RollImage(img: array2<real>, ix: nat, iy: nat) returns (out: array2<real>)
    requires 0 < img.Length0 && 0 < img.Length1 && ix <= img.Length0 && iy <= img.Length1
    ensures fresh(out) && out.Length0 == img.Length0 && out.Length1 == img.Length1
    ensures forall r: nat, c: nat :: r < out.Length0 && c < out.Length1 ==>
      var p := Rolled(img.Length0, img.Length1, ix, iy, r, c); out[r, c] == img[p.row, p.col]
  {
    var sx, sy := img.Length0, img.Length1;
    out := new real[sx, sy]((r, c) => 0.0);
    CopyBlock(out, img, ix, sx, iy, sy, -(ix as int), -(iy as int));
    CopyBlock(out, img, 0, ix, iy, sy, sx - ix, -(iy as int));
    CopyBlock(out, img, ix, sx, 0, iy, -(ix as int), sy - iy);
    CopyBlock(out, img, 0, ix, 0, iy, sx - ix, sy - iy);
    forall r: nat, c: nat | r < sx && c < sy
      ensures Rolled(sx, sy, ix, iy, r, c) == RollBlocks(sx, sy, ix, iy, r, c)
    {
      RollIsBlocks(sx, sy, ix, iy, r, c);
    }
  }

  /** The roll by quadrants, as RollImage copies them. */
  function RollBlocks(sx: nat, sy: nat, ix: nat, iy: nat, r: nat, c: nat): Pixel
  {
    Pixel(if r >= ix then r - ix else r + sx - ix, if c >= iy then c - iy else c + sy - iy)
  }
}
