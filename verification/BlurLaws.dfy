/**
 * What the frosted wallpaper looks like: a wallpaper of columns is blurred
 * along its rows alone, one of rows along its columns alone.
 */
module BlurLaws {
  import opened Division
  import opened Pixels
  import opened Blur

  /** A line blurred n times over. */
  function LineTimes(line: Line, r: nat, n: nat): (blurred: Line)
    ensures |blurred| == |line|
  {
    if n == 0 then line else BlurLine(LineTimes(line, r, n - 1), r)
  }

  /** The averages of the blocks of d along a line; black where there is no line. */
  function LineShrunk(line: Line, d: int): (small: Line)
    requires d > 0
    ensures |small| == SmallSize(|line|, d)
  {
    seq(SmallSize(|line|, d), k requires 0 <= k < SmallSize(|line|, d) => LineBlock(line, d, k))
  }

  function LineBlock(line: Line, d: int, k: int): (p: Pixel)
    requires d > 0 && 0 <= k < SmallSize(|line|, d)
    ensures Opaque(p)
  {
    BlockOf(|line|, d, k);
    var lo, hi := k * d, Min(|line|, (k + 1) * d);
    if lo == hi then 0xff000000 else Pack(Mean(line, lo, hi, Red), Mean(line, lo, hi, Green), Mean(line, lo, hi, Blue))
  }

  /** Every row is the same line. */
  predicate RowsAlike(img: Image, line: Line) { forall y :: 0 <= y < |img| ==> img[y] == line }

  /** Every row is of one colour, the one that stands in the column. */
  predicate RowsUniform(img: Image, column: Line) {
    |img| == |column| && forall y, x :: 0 <= y < |img| && 0 <= x < |img[y]| ==> img[y][x] == column[y]
  }

  predicate LineOpaque(line: Line) { forall x :: 0 <= x < |line| ==> Opaque(line[x]) }

  /* ---- a line of one colour ---- */

  lemma UniformBlurAt(line: Line, x: int, r: nat, p: Pixel)
    requires 0 <= x < |line| && Opaque(p) && forall i :: 0 <= i < |line| ==> line[i] == p
    ensures BlurAt(line, x, r) == p
  {
    hide Of;
    BlurAtBetween(line, x, r, Red, Of(p, Red), Of(p, Red));
    BlurAtBetween(line, x, r, Green, Of(p, Green), Of(p, Green));
    BlurAtBetween(line, x, r, Blue, Of(p, Blue), Of(p, Blue));
    OfThenPack(p);
    OfThenPack(BlurAt(line, x, r));
    hide BlurAt;
  }

  /* ---- passes ---- */

  lemma LineTimesOpaque(line: Line, r: nat, n: nat)
    requires LineOpaque(line)
    ensures LineOpaque(LineTimes(line, r, n))
  {
    hide BlurAt;
    if n > 0 {
      forall x | 0 <= x < |line|
        ensures Opaque(LineTimes(line, r, n)[x])
      {
        assert LineTimes(line, r, n)[x] == BlurAt(LineTimes(line, r, n - 1), x, r);
      }
    }
  }

  lemma {:induction false} AlikeRowsTimes(img: Image, w: nat, h: nat, r: nat, n: nat, line: Line)
    requires Sized(img, w, h) && RowsAlike(img, line)
    ensures RowsAlike(RowsTimes(img, w, h, r, n), LineTimes(line, r, n))
  {
    hide BlurLine;
    if n > 0 { AlikeRowsTimes(img, w, h, r, n - 1, line); }
  }

  lemma AlikeColumnsOnce(img: Image, w: nat, h: nat, r: nat, line: Line)
    requires Sized(img, w, h) && RowsAlike(img, line) && LineOpaque(line)
    ensures Columns(img, w, h, r) == img
  {
    hide BlurAt;
    forall x, y | 0 <= x < w && 0 <= y < h
      ensures Columns(img, w, h, r)[y][x] == img[y][x]
    {
      UniformBlurAt(Column(img, w, h, x), y, r, line[x]);
    }
    SameImage(Columns(img, w, h, r), img, w, h);
  }

  lemma {:induction false} AlikeColumnsTimes(img: Image, w: nat, h: nat, r: nat, n: nat, line: Line)
    requires Sized(img, w, h) && RowsAlike(img, line) && LineOpaque(line)
    ensures ColumnsTimes(img, w, h, r, n) == img
  {
    hide Columns;
    if n > 0 {
      AlikeColumnsTimes(img, w, h, r, n - 1, line);
      AlikeColumnsOnce(img, w, h, r, line);
    }
  }

  lemma UniformRowsOnce(img: Image, w: nat, h: nat, r: nat, column: Line)
    requires Sized(img, w, h) && RowsUniform(img, column) && LineOpaque(column)
    ensures Rows(img, r) == img
  {
    hide BlurAt;
    forall x, y | 0 <= x < w && 0 <= y < h
      ensures Rows(img, r)[y][x] == img[y][x]
    {
      UniformBlurAt(img[y], x, r, column[y]);
    }
    SameImage(Rows(img, r), img, w, h);
  }

  lemma {:induction false} UniformRowsTimes(img: Image, w: nat, h: nat, r: nat, n: nat, column: Line)
    requires Sized(img, w, h) && RowsUniform(img, column) && LineOpaque(column)
    ensures RowsTimes(img, w, h, r, n) == img
  {
    hide Rows;
    if n > 0 {
      UniformRowsTimes(img, w, h, r, n - 1, column);
      UniformRowsOnce(img, w, h, r, column);
    }
  }

  lemma {:induction false} UniformColumnsTimes(img: Image, w: nat, h: nat, r: nat, n: nat, column: Line)
    requires Sized(img, w, h) && RowsUniform(img, column)
    ensures RowsUniform(ColumnsTimes(img, w, h, r, n), LineTimes(column, r, n))
  {
    hide BlurAt;
    if n > 0 {
      UniformColumnsTimes(img, w, h, r, n - 1, column);
      var before := ColumnsTimes(img, w, h, r, n - 1);
      forall x | 0 <= x < w
        ensures Column(before, w, h, x) == LineTimes(column, r, n - 1)
      {
      }
    }
  }

  /* ---- shrinking ---- */

  lemma CancelDiv(k: int, s: int, n: int)
    requires k > 0 && n > 0
    ensures k * n > 0 && (k * s) / (k * n) == s / n
  {
    var q, r := s / n, s % n;
    assert k * n > 0 by { MulGrows(k, n, 1); }
    assert k * s == (k * n) * q + k * r by {
      assert s == n * q + r;
      assert k * (n * q + r) == k * (n * q) + k * r;
      assert k * (n * q) == (k * n) * q;
    }
    assert 0 <= k * r < k * n by {
      MulGrows(k, r, 0);
      MulGrows(k, n, r + 1);
      assert k * (r + 1) == k * r + k;
    }
    DivIs(k * s, k * n, q, k * r);
  }

  lemma {:induction false} AlikeBlockSum(img: Image, w: nat, h: nat, x0: int, x1: int, lo: int, hi: int, c: Channel,
                                         line: Line)
    requires Sized(img, w, h) && 0 <= x0 && x1 <= w && 0 <= lo <= hi <= h
    requires RowsAlike(img, line) && |line| == w
    ensures BlockSum(img, w, h, x0, x1, lo, hi, c) == (hi - lo) * Sum(line, x0, x1, c)
    decreases hi
  {
    hide Sum;
    if lo < hi {
      AlikeBlockSum(img, w, h, x0, x1, lo, hi - 1, c, line);
      var s := Sum(line, x0, x1, c);
      assert (hi - 1 - lo) * s + s == (hi - lo) * s;
    }
  }

  lemma AlikeBlockMean(img: Image, w: nat, h: nat, x0: int, x1: int, lo: int, hi: int, c: Channel, line: Line)
    requires Sized(img, w, h) && 0 <= x0 < x1 <= w && 0 <= lo < hi <= h
    requires RowsAlike(img, line) && |line| == w
    ensures BlockMean(img, w, h, x0, x1, lo, hi, c) == Mean(line, x0, x1, c)
  {
    AlikeBlockSum(img, w, h, x0, x1, lo, hi, c, line);
    hide BlockSum;
    hide Sum;
    hide RowsAlike;
    CancelDiv(hi - lo, Sum(line, x0, x1, c), x1 - x0);
    assert (x1 - x0) * (hi - lo) == (hi - lo) * (x1 - x0);
  }

  /** A wallpaper of columns shrinks to one. */
  lemma AlikeShrunk(img: Image, w: nat, h: nat, d: int, line: Line)
    requires Sized(img, w, h) && h > 0 && w > 0 && d > 0 && RowsAlike(img, line)
    ensures RowsAlike(Shrunk(img, w, h, d), LineShrunk(line, d))
  {
    assert line == img[0];
    forall y, x | 0 <= y < SmallSize(h, d) && 0 <= x < SmallSize(w, d)
      ensures ShrunkAt(img, w, h, d, x, y) == LineBlock(line, d, x)
    {
      BlockOf(w, d, x);
      BlockOf(h, d, y);
      AlikeBlocks(img, w, h, x * d, Min(w, (x + 1) * d), y * d, Min(h, (y + 1) * d), line);
    }
    hide ShrunkAt;
    hide LineBlock;
    hide SmallSize;
    assert forall y :: 0 <= y < SmallSize(h, d) ==> Shrunk(img, w, h, d)[y] == LineShrunk(line, d);
  }

  lemma AlikeBlocks(img: Image, w: nat, h: nat, x0: int, x1: int, lo: int, hi: int, line: Line)
    requires Sized(img, w, h) && 0 <= x0 < x1 <= w && 0 <= lo < hi <= h
    requires RowsAlike(img, line) && |line| == w
    ensures BlockAverage(img, w, h, x0, x1, lo, hi) ==
      Pack(Mean(line, x0, x1, Red), Mean(line, x0, x1, Green), Mean(line, x0, x1, Blue))
  {
    AlikeBlockMean(img, w, h, x0, x1, lo, hi, Red, line);
    AlikeBlockMean(img, w, h, x0, x1, lo, hi, Green, line);
    AlikeBlockMean(img, w, h, x0, x1, lo, hi, Blue, line);
    hide BlockMean;
    hide Mean;
    hide RowsAlike;
  }

  lemma {:induction false} UniformSum(line: Line, lo: int, hi: int, c: Channel, p: Pixel)
    requires 0 <= lo <= hi <= |line| && forall i :: 0 <= i < |line| ==> line[i] == p
    ensures Sum(line, lo, hi, c) == (hi - lo) * Of(p, c)
    decreases hi
  {
    hide Of;
    if lo < hi {
      UniformSum(line, lo, hi - 1, c, p);
      var v := Of(p, c);
      assert (hi - 1 - lo) * v + v == (hi - lo) * v;
    }
  }

  lemma {:induction false} UniformBlockSum(img: Image, w: nat, h: nat, x0: int, x1: int, lo: int, hi: int, c: Channel,
                                           column: Line)
    requires Sized(img, w, h) && 0 <= x0 <= x1 <= w && 0 <= lo <= hi <= h && RowsUniform(img, column)
    ensures BlockSum(img, w, h, x0, x1, lo, hi, c) == (x1 - x0) * Sum(column, lo, hi, c)
    decreases hi
  {
    if lo < hi {
      UniformBlockSum(img, w, h, x0, x1, lo, hi - 1, c, column);
      UniformSum(img[hi - 1], x0, x1, c, column[hi - 1]);
      var k, s, v := x1 - x0, Sum(column, lo, hi - 1, c), Of(column[hi - 1], c);
      assert Sum(column, lo, hi, c) == s + v;
      hide Sum;
      hide Of;
      hide RowsUniform;
      TimesSum(k, s, v);
    }
  }

  lemma TimesSum(k: int, s: int, v: int)
    ensures k * s + k * v == k * (s + v)
  {
  }

  lemma UniformBlockMean(img: Image, w: nat, h: nat, x0: int, x1: int, lo: int, hi: int, c: Channel, column: Line)
    requires Sized(img, w, h) && 0 <= x0 < x1 <= w && 0 <= lo < hi <= h && RowsUniform(img, column)
    ensures BlockMean(img, w, h, x0, x1, lo, hi, c) == Mean(column, lo, hi, c)
  {
    UniformBlockSum(img, w, h, x0, x1, lo, hi, c, column);
    hide BlockSum;
    hide Sum;
    hide RowsUniform;
    CancelDiv(x1 - x0, Sum(column, lo, hi, c), hi - lo);
  }

  lemma UniformBlocks(img: Image, w: nat, h: nat, x0: int, x1: int, lo: int, hi: int, column: Line)
    requires Sized(img, w, h) && 0 <= x0 < x1 <= w && 0 <= lo < hi <= h && RowsUniform(img, column)
    ensures BlockAverage(img, w, h, x0, x1, lo, hi) ==
      Pack(Mean(column, lo, hi, Red), Mean(column, lo, hi, Green), Mean(column, lo, hi, Blue))
  {
    UniformBlockMean(img, w, h, x0, x1, lo, hi, Red, column);
    UniformBlockMean(img, w, h, x0, x1, lo, hi, Green, column);
    UniformBlockMean(img, w, h, x0, x1, lo, hi, Blue, column);
    hide BlockMean;
    hide Mean;
    hide RowsUniform;
  }

  /** A wallpaper of rows shrinks to one. */
  lemma UniformShrunk(img: Image, w: nat, h: nat, d: int, column: Line)
    requires Sized(img, w, h) && h > 0 && w > 0 && d > 0 && RowsUniform(img, column)
    ensures RowsUniform(Shrunk(img, w, h, d), LineShrunk(column, d))
  {
    forall y, x | 0 <= y < SmallSize(h, d) && 0 <= x < SmallSize(w, d)
      ensures ShrunkAt(img, w, h, d, x, y) == LineBlock(column, d, y)
    {
      BlockOf(w, d, x);
      BlockOf(h, d, y);
      UniformBlocks(img, w, h, x * d, Min(w, (x + 1) * d), y * d, Min(h, (y + 1) * d), column);
    }
  }

  /* ---- the frosted wallpaper ---- */

  /** A wallpaper whose rows are all alike comes out with rows alike: that line shrunk, and blurred once a pass. */
  lemma FrostedColumns(img: Image, w: nat, h: nat, radius: int, passes: nat, line: Line)
    requires Sized(img, w, h) && w > 0 && h > 0 && RowsAlike(img, line)
    ensures RowsAlike(Frosted(img, w, h, radius, passes),
                      LineTimes(LineShrunk(line, BlockSize(radius)), PassRadius(radius), passes))
  {
    var d, r := BlockSize(radius), PassRadius(radius);
    var sw, sh := SmallSize(w, d), SmallSize(h, d);
    var small, narrow := Shrunk(img, w, h, d), LineShrunk(line, d);
    AlikeShrunk(img, w, h, d, line);
    assert LineOpaque(narrow) by { hide LineBlock; }
    hide Shrunk;
    hide LineShrunk;
    hide LineOpaque;
    AlikeRowsTimes(small, sw, sh, r, passes, narrow);
    LineTimesOpaque(narrow, r, passes);
    AlikeColumnsTimes(RowsTimes(small, sw, sh, r, passes), sw, sh, r, passes, LineTimes(narrow, r, passes));
  }

  /** One whose rows are each of one colour comes out so: the column of colours shrunk, and blurred once a pass. */
  lemma FrostedRows(img: Image, w: nat, h: nat, radius: int, passes: nat, column: Line)
    requires Sized(img, w, h) && w > 0 && h > 0 && RowsUniform(img, column)
    ensures RowsUniform(Frosted(img, w, h, radius, passes),
                        LineTimes(LineShrunk(column, BlockSize(radius)), PassRadius(radius), passes))
  {
    var d, r := BlockSize(radius), PassRadius(radius);
    var sw, sh := SmallSize(w, d), SmallSize(h, d);
    var small, narrow := Shrunk(img, w, h, d), LineShrunk(column, d);
    UniformShrunk(img, w, h, d, column);
    assert LineOpaque(narrow) by { hide LineBlock; }
    hide Shrunk;
    hide LineShrunk;
    hide LineOpaque;
    hide RowsUniform;
    UniformRowsTimes(small, sw, sh, r, passes, narrow);
    UniformColumnsTimes(small, sw, sh, r, passes, narrow);
  }

  /** The window of a pixel is what lies within the radius of it, on both its sides and on the line. */
  lemma WindowIs(line: Line, x: int, r: nat, i: int)
    requires 0 <= x < |line|
    ensures From(x, r) <= i < To(line, x, r) <==> 0 <= i < |line| && x - r <= i <= x + r
  {
  }

  /** Every channel of a shrunk pixel is the floor average over its block. */
  lemma ShrunkIsBlockMean(img: Image, w: nat, h: nat, d: int, x: int, y: int, c: Channel)
    requires Sized(img, w, h) && w > 0 && h > 0 && d > 0 && 0 <= x < SmallSize(w, d) && 0 <= y < SmallSize(h, d)
    ensures var x1, y1 := Min(w, (x + 1) * d), Min(h, (y + 1) * d);
      && 0 <= x * d < x1 <= w && 0 <= y * d < y1 <= h && (x1 - x * d) * (y1 - y * d) > 0
      && Of(ShrunkAt(img, w, h, d, x, y), c) ==
         BlockSum(img, w, h, x * d, x1, y * d, y1, c) / ((x1 - x * d) * (y1 - y * d))
  {
    hide Of;
    hide BlockSum;
    BlockOf(w, d, x);
    BlockOf(h, d, y);
    var x0, x1, lo, hi := x * d, Min(w, (x + 1) * d), y * d, Min(h, (y + 1) * d);
    assert (x1 - x0) * (hi - lo) > 0 by { MulGrows(x1 - x0, hi - lo, 1); }
    PackThenOf(BlockMean(img, w, h, x0, x1, lo, hi, Red), BlockMean(img, w, h, x0, x1, lo, hi, Green),
               BlockMean(img, w, h, x0, x1, lo, hi, Blue));
  }

  /**
   * The blocks are of 4 pixels for a radius under 20, of 8 from 32 on, and of
   * a quarter of it between; a pass reaches as far as the radius in blocks.
   */
  lemma SizesFollowTheRadius(radius: int)
    ensures radius < 20 ==> BlockSize(radius) == 4
    ensures radius >= 32 ==> BlockSize(radius) == 8
    ensures 20 <= radius < 32 ==> 4 * BlockSize(radius) <= radius < 4 * BlockSize(radius) + 4
    ensures var d, r := BlockSize(radius), PassRadius(radius);
      if radius >= d then r * d <= radius < r * d + d else r == 1
  {
    var d := BlockSize(radius);
    if radius >= d {
      assert radius / d >= 1;
      assert PassRadius(radius) == radius / d;
    } else {
      assert radius / d <= 0;
    }
  }
}
