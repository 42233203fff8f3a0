/** What the frosted wallpaper is: a shrunk image, box blurred along its rows and then along its columns. */
module Blur {
  import opened Division
  import opened Pixels

  /* ---- sums and averages ---- */

  /** The sum of a channel over line[lo..hi]. */
  function Sum(line: Line, lo: int, hi: int, c: Channel): int
    requires 0 <= lo && hi <= |line|
    decreases hi - lo
  {
    if hi <= lo then 0 else Sum(line, lo, hi - 1, c) + Of(line[hi - 1], c)
  }

  lemma {:induction false} SumWithoutFirst(line: Line, lo: int, hi: int, c: Channel)
    requires 0 <= lo < hi <= |line|
    ensures Sum(line, lo, hi, c) == Of(line[lo], c) + Sum(line, lo + 1, hi, c)
    decreases hi
  {
    if lo + 1 < hi { SumWithoutFirst(line, lo, hi - 1, c); }
  }

  predicate Between(line: Line, lo: int, hi: int, c: Channel, low: int, high: int)
    requires 0 <= lo && hi <= |line|
  {
    forall i :: lo <= i < hi ==> low <= Of(line[i], c) <= high
  }

  /** A sum lies between the count times the extremes; so with 24-bit counts it never passes 32 bits. */
  lemma {:induction false} SumBetween(line: Line, lo: int, hi: int, c: Channel, low: int, high: int)
    requires 0 <= lo <= hi <= |line| && Between(line, lo, hi, c, low, high)
    ensures (hi - lo) * low <= Sum(line, lo, hi, c) <= (hi - lo) * high
    decreases hi
  {
    if lo < hi {
      SumBetween(line, lo, hi - 1, c, low, high);
      assert (hi - lo) * low == (hi - 1 - lo) * low + low;
      assert (hi - lo) * high == (hi - 1 - lo) * high + high;
    }
  }

  /** The floor average of a channel over line[lo..hi]. */
  function Mean(line: Line, lo: int, hi: int, c: Channel): (mean: int)
    requires 0 <= lo < hi <= |line|
    ensures 0 <= mean <= 255
  {
    SumBetween(line, lo, hi, c, 0, 255);
    DivBounds(Sum(line, lo, hi, c), hi - lo, 0, 255);
    Sum(line, lo, hi, c) / (hi - lo)
  }

  lemma MeanBetween(line: Line, lo: int, hi: int, c: Channel, low: int, high: int)
    requires 0 <= lo < hi <= |line| && Between(line, lo, hi, c, low, high)
    ensures low <= Mean(line, lo, hi, c) <= high
  {
    SumBetween(line, lo, hi, c, low, high);
    DivBounds(Sum(line, lo, hi, c), hi - lo, low, high);
  }

  /* ---- one box blur ---- */

  /** The window of pixel x, clipped to the line. */
  function From(x: int, r: nat): int { Max(0, x - r) }
  function To(line: Line, x: int, r: nat): int { Min(|line|, x + r + 1) }

  /** The average over the window around x. */
  function BlurAt(line: Line, x: int, r: nat): (p: Pixel)
    requires 0 <= x < |line|
    ensures Opaque(p)
  {
    var lo, hi := From(x, r), To(line, x, r);
    Pack(Mean(line, lo, hi, Red), Mean(line, lo, hi, Green), Mean(line, lo, hi, Blue))
  }

  function BlurLine(line: Line, r: nat): (blurred: Line)
    ensures |blurred| == |line|
  {
    seq(|line|, x requires 0 <= x < |line| => BlurAt(line, x, r))
  }

  /** Every channel of a blurred pixel is the floor average over its window, which is never empty. */
  lemma BlurAtIsMean(line: Line, x: int, r: nat, c: Channel)
    requires 0 <= x < |line|
    ensures From(x, r) <= x < To(line, x, r)
    ensures Of(BlurAt(line, x, r), c) == Sum(line, From(x, r), To(line, x, r), c) / (To(line, x, r) - From(x, r))
  {
    hide Of;
    var lo, hi := From(x, r), To(line, x, r);
    PackThenOf(Mean(line, lo, hi, Red), Mean(line, lo, hi, Green), Mean(line, lo, hi, Blue));
  }

  /** Blurring makes no channel brighter or darker than its window was. */
  lemma BlurAtBetween(line: Line, x: int, r: nat, c: Channel, low: int, high: int)
    requires 0 <= x < |line| && Between(line, 0, |line|, c, low, high)
    ensures low <= Of(BlurAt(line, x, r), c) <= high
  {
    hide Of;
    BlurAtIsMean(line, x, r, c);
    MeanBetween(line, From(x, r), To(line, x, r), c, low, high);
  }

  /* ---- images ---- */

  function Rows(img: Image, r: nat): (blurred: Image)
    ensures |blurred| == |img| && forall y :: 0 <= y < |img| ==> |blurred[y]| == |img[y]|
  {
    seq(|img|, y requires 0 <= y < |img| => BlurLine(img[y], r))
  }

  function Column(img: Image, w: nat, h: nat, x: int): (column: Line)
    requires Sized(img, w, h) && 0 <= x < w
    ensures |column| == h
  {
    seq(h, y requires 0 <= y < h => img[y][x])
  }

  function Transposed(img: Image, w: nat, h: nat): (turned: Image)
    requires Sized(img, w, h)
    ensures Sized(turned, h, w)
  {
    seq(w, x requires 0 <= x < w => Column(img, w, h, x))
  }

  /** The same blur along the columns, said without turning the image. */
  function Columns(img: Image, w: nat, h: nat, r: nat): (blurred: Image)
    requires Sized(img, w, h)
    ensures Sized(blurred, w, h)
  {
    seq(h, y requires 0 <= y < h =>
      seq(w, x requires 0 <= x < w => BlurAt(Column(img, w, h, x), y, r)))
  }

  lemma TransposedTwice(img: Image, w: nat, h: nat)
    requires Sized(img, w, h)
    ensures Transposed(Transposed(img, w, h), h, w) == img
  {
    SameImage(Transposed(Transposed(img, w, h), h, w), img, w, h);
  }

  /** Turning, blurring the rows and turning back is a blur of the columns. */
  lemma TurnedRowsAreColumns(img: Image, w: nat, h: nat, r: nat)
    requires Sized(img, w, h)
    ensures Transposed(Rows(Transposed(img, w, h), r), h, w) == Columns(img, w, h, r)
  {
    hide BlurAt;
    SameImage(Transposed(Rows(Transposed(img, w, h), r), h, w), Columns(img, w, h, r), w, h);
  }

  function RowsTimes(img: Image, w: nat, h: nat, r: nat, n: nat): (blurred: Image)
    requires Sized(img, w, h)
    ensures Sized(blurred, w, h)
  {
    if n == 0 then img else Rows(RowsTimes(img, w, h, r, n - 1), r)
  }

  function ColumnsTimes(img: Image, w: nat, h: nat, r: nat, n: nat): (blurred: Image)
    requires Sized(img, w, h)
    ensures Sized(blurred, w, h)
  {
    if n == 0 then img else Columns(ColumnsTimes(img, w, h, r, n - 1), w, h, r)
  }

  /** Any number of row passes between two turns is as many column passes. */
  lemma {:induction false} TurnedPassesAreColumnPasses(img: Image, w: nat, h: nat, r: nat, n: nat)
    requires Sized(img, w, h)
    ensures Transposed(RowsTimes(Transposed(img, w, h), h, w, r, n), h, w) == ColumnsTimes(img, w, h, r, n)
  {
    hide Rows;
    hide Columns;
    hide Transposed;
    if n == 0 {
      TransposedTwice(img, w, h);
    } else {
      TurnedPassesAreColumnPasses(img, w, h, r, n - 1);
      var inner := RowsTimes(Transposed(img, w, h), h, w, r, n - 1);
      TransposedTwice(inner, h, w);
      TurnedRowsAreColumns(Transposed(inner, h, w), w, h, r);
    }
  }

  /* ---- shrinking ---- */

  function SmallSize(size: nat, d: int): nat
    requires d > 0
  {
    Max(1, size / d)
  }

  /** The sum of a channel over rows lo..hi and columns x0..x1. */
  function BlockSum(img: Image, w: nat, h: nat, x0: int, x1: int, lo: int, hi: int, c: Channel): int
    requires Sized(img, w, h) && 0 <= x0 && x1 <= w && 0 <= lo && hi <= h
    decreases hi - lo
  {
    if hi <= lo then 0
    else BlockSum(img, w, h, x0, x1, lo, hi - 1, c) + Sum(img[hi - 1], x0, x1, c)
  }

  predicate AllBetween(img: Image, c: Channel, low: int, high: int) {
    forall y :: 0 <= y < |img| ==> Between(img[y], 0, |img[y]|, c, low, high)
  }

  predicate AllOpaque(img: Image) {
    forall y :: 0 <= y < |img| ==> forall x :: 0 <= x < |img[y]| ==> Opaque(img[y][x])
  }

  lemma {:induction false} BlockSumBetween(img: Image, w: nat, h: nat, x0: int, x1: int, lo: int, hi: int,
                                           c: Channel, low: int, high: int)
    requires Sized(img, w, h) && 0 <= x0 <= x1 <= w && 0 <= lo <= hi <= h && AllBetween(img, c, low, high)
    ensures (x1 - x0) * (hi - lo) * low <= BlockSum(img, w, h, x0, x1, lo, hi, c) <= (x1 - x0) * (hi - lo) * high
    decreases hi
  {
    hide Sum;
    hide Of;
    if lo < hi {
      BlockSumBetween(img, w, h, x0, x1, lo, hi - 1, c, low, high);
      assert Between(img[hi - 1], 0, w, c, low, high);
      SumBetween(img[hi - 1], x0, x1, c, low, high);
      OneMore(x1 - x0, hi - lo, low);
      OneMore(x1 - x0, hi - lo, high);
    }
  }

  lemma OneMore(a: int, b: int, v: int)
    ensures a * b * v == a * (b - 1) * v + a * v
  {
    assert a * b == a * (b - 1) + a;
    var s := a * (b - 1);
    assert (s + a) * v == s * v + a * v;
  }

  /** The floor average of a channel over a block that is not empty. */
  function BlockMean(img: Image, w: nat, h: nat, x0: int, x1: int, lo: int, hi: int, c: Channel): (mean: int)
    requires Sized(img, w, h) && 0 <= x0 < x1 <= w && 0 <= lo < hi <= h
    ensures 0 <= mean <= 255
  {
    assert (x1 - x0) * (hi - lo) > 0;
    assert AllBetween(img, c, 0, 255);
    BlockSumBetween(img, w, h, x0, x1, lo, hi, c, 0, 255);
    DivBounds(BlockSum(img, w, h, x0, x1, lo, hi, c), (x1 - x0) * (hi - lo), 0, 255);
    BlockSum(img, w, h, x0, x1, lo, hi, c) / ((x1 - x0) * (hi - lo))
  }

  /** The average of a block, and opaque black for an empty one. */
  function BlockAverage(img: Image, w: nat, h: nat, x0: int, x1: int, lo: int, hi: int): (p: Pixel)
    requires Sized(img, w, h) && 0 <= x0 <= x1 <= w && 0 <= lo <= hi <= h
    ensures Opaque(p)
  {
    if x0 == x1 || lo == hi then 0xff000000
    else Pack(BlockMean(img, w, h, x0, x1, lo, hi, Red), BlockMean(img, w, h, x0, x1, lo, hi, Green),
              BlockMean(img, w, h, x0, x1, lo, hi, Blue))
  }

  /** The k-th of the blocks of d along a side; only an empty side has an empty block. */
  lemma BlockOf(size: nat, d: int, k: int)
    requires d > 0 && 0 <= k < SmallSize(size, d)
    ensures 0 <= k * d <= Min(size, (k + 1) * d) <= size
    ensures size > 0 ==> k * d < Min(size, (k + 1) * d)
  {
    assert (k + 1) * d == k * d + d;
    assert k * d >= 0;
    if k > 0 {
      MulGrows(d, size / d, k + 1);
      assert d * (size / d) <= size;
    }
  }

  function Shrunk(img: Image, w: nat, h: nat, d: int): (small: Image)
    requires Sized(img, w, h) && d > 0
    ensures Sized(small, SmallSize(w, d), SmallSize(h, d))
  {
    seq(SmallSize(h, d), y requires 0 <= y < SmallSize(h, d) =>
      seq(SmallSize(w, d), x requires 0 <= x < SmallSize(w, d) => ShrunkAt(img, w, h, d, x, y)))
  }

  function ShrunkAt(img: Image, w: nat, h: nat, d: int, x: int, y: int): (p: Pixel)
    requires Sized(img, w, h) && d > 0 && 0 <= x < SmallSize(w, d) && 0 <= y < SmallSize(h, d)
    ensures Opaque(p)
  {
    BlockOf(w, d, x);
    BlockOf(h, d, y);
    BlockAverage(img, w, h, x * d, Min(w, (x + 1) * d), y * d, Min(h, (y + 1) * d))
  }

  /* ---- the whole pipeline ---- */

  function BlockSize(radius: int): int { Max(4, Min(8, radius / 4)) }
  function PassRadius(radius: int): nat { Max(1, radius / BlockSize(radius)) }

  /** The frosted wallpaper before its tint. */
  function Frosted(img: Image, w: nat, h: nat, radius: int, passes: nat): (frosted: Image)
    requires Sized(img, w, h)
    ensures Sized(frosted, SmallSize(w, BlockSize(radius)), SmallSize(h, BlockSize(radius)))
  {
    var d, r := BlockSize(radius), PassRadius(radius);
    var sw, sh := SmallSize(w, d), SmallSize(h, d);
    ColumnsTimes(RowsTimes(Shrunk(img, w, h, d), sw, sh, r, passes), sw, sh, r, passes)
  }

  /* ---- what blurring keeps ---- */

  lemma RowsBetween(img: Image, r: nat, c: Channel, low: int, high: int)
    requires AllBetween(img, c, low, high)
    ensures AllBetween(Rows(img, r), c, low, high) && AllOpaque(Rows(img, r))
  {
    hide BlurAt;
    hide Of;
    forall y, x | 0 <= y < |img| && 0 <= x < |img[y]|
      ensures low <= Of(Rows(img, r)[y][x], c) <= high
    {
      assert Between(img[y], 0, |img[y]|, c, low, high);
      BlurAtBetween(img[y], x, r, c, low, high);
    }
  }

  lemma ColumnsBetween(img: Image, w: nat, h: nat, r: nat, c: Channel, low: int, high: int)
    requires Sized(img, w, h) && AllBetween(img, c, low, high)
    ensures AllBetween(Columns(img, w, h, r), c, low, high) && AllOpaque(Columns(img, w, h, r))
  {
    hide BlurAt;
    hide Of;
    forall y, x | 0 <= y < h && 0 <= x < w
      ensures low <= Of(Columns(img, w, h, r)[y][x], c) <= high
    {
      assert forall i :: 0 <= i < h ==> Between(img[i], 0, |img[i]|, c, low, high);
      assert Between(Column(img, w, h, x), 0, h, c, low, high);
      BlurAtBetween(Column(img, w, h, x), y, r, c, low, high);
    }
  }

  lemma {:induction false} PassesBetween(img: Image, w: nat, h: nat, r: nat, n: nat, c: Channel, low: int, high: int)
    requires Sized(img, w, h) && AllBetween(img, c, low, high) && AllOpaque(img)
    ensures AllBetween(RowsTimes(img, w, h, r, n), c, low, high) && AllOpaque(RowsTimes(img, w, h, r, n))
    ensures AllBetween(ColumnsTimes(img, w, h, r, n), c, low, high) && AllOpaque(ColumnsTimes(img, w, h, r, n))
  {
    hide Rows;
    hide Columns;
    hide AllBetween;
    hide AllOpaque;
    if n > 0 {
      PassesBetween(img, w, h, r, n - 1, c, low, high);
      RowsBetween(RowsTimes(img, w, h, r, n - 1), r, c, low, high);
      ColumnsBetween(ColumnsTimes(img, w, h, r, n - 1), w, h, r, c, low, high);
    }
  }

  lemma ShrunkAtBetween(img: Image, w: nat, h: nat, d: int, x: int, y: int, c: Channel, low: int, high: int)
    requires Sized(img, w, h) && w > 0 && h > 0 && d > 0 && AllBetween(img, c, low, high)
    requires 0 <= x < SmallSize(w, d) && 0 <= y < SmallSize(h, d)
    ensures low <= Of(ShrunkAt(img, w, h, d, x, y), c) <= high
  {
    hide Of;
    hide BlockSum;
    hide AllBetween;
    BlockOf(w, d, x);
    BlockOf(h, d, y);
    var x0, x1, lo, hi := x * d, Min(w, (x + 1) * d), y * d, Min(h, (y + 1) * d);
    PackThenOf(BlockMean(img, w, h, x0, x1, lo, hi, Red), BlockMean(img, w, h, x0, x1, lo, hi, Green),
               BlockMean(img, w, h, x0, x1, lo, hi, Blue));
    BlockMeanBetween(img, w, h, x0, x1, lo, hi, c, low, high);
  }

  lemma BlockMeanBetween(img: Image, w: nat, h: nat, x0: int, x1: int, lo: int, hi: int,
                         c: Channel, low: int, high: int)
    requires Sized(img, w, h) && 0 <= x0 < x1 <= w && 0 <= lo < hi <= h && AllBetween(img, c, low, high)
    ensures low <= BlockMean(img, w, h, x0, x1, lo, hi, c) <= high
  {
    hide BlockSum;
    assert (x1 - x0) * (hi - lo) > 0;
    BlockSumBetween(img, w, h, x0, x1, lo, hi, c, low, high);
    DivBounds(BlockSum(img, w, h, x0, x1, lo, hi, c), (x1 - x0) * (hi - lo), low, high);
  }

  /**
   * Nothing in the frosted image is brighter or darker, in any channel, than
   * everything in the wallpaper was, and every pixel of it is opaque.
   */
  lemma FrostedBetween(img: Image, w: nat, h: nat, radius: int, passes: nat, c: Channel, low: int, high: int)
    requires Sized(img, w, h) && w > 0 && h > 0 && AllBetween(img, c, low, high)
    ensures AllBetween(Frosted(img, w, h, radius, passes), c, low, high)
    ensures AllOpaque(Frosted(img, w, h, radius, passes))
  {
    var d, r := BlockSize(radius), PassRadius(radius);
    var sw, sh := SmallSize(w, d), SmallSize(h, d);
    var small := Shrunk(img, w, h, d);
    assert AllBetween(small, c, low, high) && AllOpaque(small) by {
      hide Of;
      hide ShrunkAt;
      hide SmallSize;
      forall y, x | 0 <= y < sh && 0 <= x < sw
        ensures low <= Of(small[y][x], c) <= high
      {
        ShrunkAtBetween(img, w, h, d, x, y, c, low, high);
      }
    }
    PassesBetween(small, sw, sh, r, passes, c, low, high);
    PassesBetween(RowsTimes(small, sw, sh, r, passes), sw, sh, r, passes, c, low, high);
  }

  /** A wallpaper of one opaque colour is left as it is. */
  lemma UniformStays(img: Image, w: nat, h: nat, radius: int, passes: nat, p: Pixel)
    requires Sized(img, w, h) && w > 0 && h > 0 && Opaque(p)
    requires forall y :: 0 <= y < h ==> forall x :: 0 <= x < w ==> img[y][x] == p
    ensures var frosted := Frosted(img, w, h, radius, passes);
      forall y :: 0 <= y < |frosted| ==> forall x :: 0 <= x < |frosted[y]| ==> frosted[y][x] == p
  {
    hide Of;
    var frosted := Frosted(img, w, h, radius, passes);
    forall c: Channel
      ensures AllBetween(frosted, c, Of(p, c), Of(p, c)) && AllOpaque(frosted)
    {
      FrostedBetween(img, w, h, radius, passes, c, Of(p, c), Of(p, c));
    }
    hide Frosted;
    assert AllOpaque(frosted) && AllBetween(frosted, Red, Of(p, Red), Of(p, Red)) &&
           AllBetween(frosted, Green, Of(p, Green), Of(p, Green)) &&
           AllBetween(frosted, Blue, Of(p, Blue), Of(p, Blue));
    forall y, x | 0 <= y < |frosted| && 0 <= x < |frosted[y]|
      ensures frosted[y][x] == p
    {
      OfThenPack(p);
      OfThenPack(frosted[y][x]);
    }
  }
}
