/** The blur as it runs: sliding sums over pixel buffers that are swapped between passes. */
module BlurBuffers {
  import opened Division
  import opened Pixels
  import opened Blur

  /** A sum over at most 0x1010101 pixels fits the 32 bits it is kept in. */
  lemma SumFits(line: Line, lo: int, hi: int, c: Channel)
    requires 0 <= lo <= hi <= |line| && hi - lo <= 0x1010101
    ensures 0 <= Sum(line, lo, hi, c) <= 0xffffffff
  {
    SumBetween(line, lo, hi, c, 0, 255);
  }

  /** The running sums and the count of the window around x. */
  predicate Running(line: Line, x: nat, r: nat, red: int, green: int, blue: int, count: int)
    requires x <= |line|
  {
    && count == To(line, x, r) - From(x, r)
    && red == Sum(line, From(x, r), To(line, x, r), Red)
    && green == Sum(line, From(x, r), To(line, x, r), Green)
    && blue == Sum(line, From(x, r), To(line, x, r), Blue)
  }

  /** What a pixel adds to a channel's sum, and nothing past the ends of the line. */
  function Share(line: Line, i: int, c: Channel): (v: int)
    ensures v >= 0
  {
    if 0 <= i < |line| then Of(line[i], c) else 0
  }

  /** Sliding the window one pixel on takes one pixel out and one in, and never below zero. */
  lemma WindowSlides(line: Line, x: nat, r: nat, red: int, green: int, blue: int, count: int)
    requires x < |line| && Running(line, x, r, red, green, blue, count)
    ensures var gone, come := x - r, x + r + 1;
      && red >= Share(line, gone, Red) && green >= Share(line, gone, Green) && blue >= Share(line, gone, Blue)
      && Running(line, x + 1, r,
                 red - Share(line, gone, Red) + Share(line, come, Red),
                 green - Share(line, gone, Green) + Share(line, come, Green),
                 blue - Share(line, gone, Blue) + Share(line, come, Blue),
                 count - (if gone >= 0 then 1 else 0) + (if come < |line| then 1 else 0))
  {
    SumSlides(line, x, r, Red);
    SumSlides(line, x, r, Green);
    SumSlides(line, x, r, Blue);
  }

  lemma SumSlides(line: Line, x: nat, r: nat, c: Channel)
    requires x < |line|
    ensures Sum(line, From(x + 1, r), To(line, x + 1, r), c)
         == Sum(line, From(x, r), To(line, x, r), c) - Share(line, x - r, c) + Share(line, x + r + 1, c)
    ensures Share(line, x - r, c) <= Sum(line, From(x, r), To(line, x, r), c)
  {
    hide Of;
    SumBetween(line, From(x, r), To(line, x, r), c, 0, 255);
    if x - r >= 0 {
      SumWithoutFirst(line, x - r, To(line, x, r), c);
      SumBetween(line, x - r + 1, To(line, x, r), c, 0, 255);
    }
  }

  /** Three sums that the 32 bits they are kept in can hold. */
  predicate Unwrapped(red: int, green: int, blue: int) {
    0 <= red <= 0xffffffff && 0 <= green <= 0xffffffff && 0 <= blue <= 0xffffffff
  }

  lemma RunningFits(line: Line, x: nat, r: nat, red: int, green: int, blue: int, count: int)
    requires x < |line| <= 0x1010101 && Running(line, x, r, red, green, blue, count)
    ensures Unwrapped(red, green, blue)
  {
    SumFits(line, From(x, r), To(line, x, r), Red);
    SumFits(line, From(x, r), To(line, x, r), Green);
    SumFits(line, From(x, r), To(line, x, r), Blue);
  }

  lemma RunningGivesBlur(line: Line, x: nat, r: nat, red: int, green: int, blue: int, count: int)
    requires x < |line| && Running(line, x, r, red, green, blue, count)
    ensures count > 0 && 0 <= red / count <= 255 && 0 <= green / count <= 255 && 0 <= blue / count <= 255
    ensures Pack(red / count, green / count, blue / count) == BlurAt(line, x, r)
  {
    hide Of;
    hide Sum;
    var lo, hi := From(x, r), To(line, x, r);
    assert red / count == Mean(line, lo, hi, Red);
    assert green / count == Mean(line, lo, hi, Green);
    assert blue / count == Mean(line, lo, hi, Blue);
  }

  /** The sums and the count of the first pixel's window. */
  method FirstWindow(src: array<Pixel>, base: nat, width: nat, radius: nat)
    returns (red: int, green: int, blue: int, count: int)
    requires base + width <= src.Length
    ensures Running(src[base..base + width], 0, radius, red, green, blue, count)
  {
    hide Of;
    ghost var line := src[base..base + width];
    red, green, blue, count := 0, 0, 0, 0;
    var i: nat := 0;
    while i <= radius && i < width
      invariant i <= width && i <= radius + 1 && count == i
      invariant red == Sum(line, 0, i, Red) && green == Sum(line, 0, i, Green) && blue == Sum(line, 0, i, Blue)
      invariant width <= 0x1010101 ==> Unwrapped(red, green, blue)
    {
      if width <= 0x1010101 {
        SumFits(line, 0, i + 1, Red);
        SumFits(line, 0, i + 1, Green);
        SumFits(line, 0, i + 1, Blue);
      }
      var p := src[base + i];
      red, green, blue := red + Of(p, Red), green + Of(p, Green), blue + Of(p, Blue);
      count, i := count + 1, i + 1;
    }
  }

  /** One row: the running sums of the window, one pixel out and one in at each step. */
  method BlurRow(dst: array<Pixel>, src: array<Pixel>, base: nat, width: nat, radius: nat)
    requires dst != src && base + width <= src.Length && base + width <= dst.Length
    modifies dst
    ensures dst[base..base + width] == BlurLine(src[base..base + width], radius)
    ensures dst[..base] == old(dst[..base])
  {
    hide Running;
    hide BlurAt;
    hide Of;
    ghost var line := src[base..base + width];
    var red, green, blue, count := FirstWindow(src, base, width, radius);
    var x: nat := 0;
    while x < width
      invariant x <= width && Running(line, x, radius, red, green, blue, count)
      invariant forall k :: base <= k < base + x ==> dst[k] == BlurAt(line, k - base, radius)
      invariant forall k :: 0 <= k < base ==> dst[k] == old(dst[k])
    {
      RunningGivesBlur(line, x, radius, red, green, blue, count);
      assert width <= 0x1010101 ==> Unwrapped(red, green, blue) by {
        if width <= 0x1010101 { RunningFits(line, x, radius, red, green, blue, count); }
      }
      dst[base + x] := Pack(red / count, green / count, blue / count);
      WindowSlides(line, x, radius, red, green, blue, count);
      if x - radius >= 0 {
        var gone := src[base + x - radius];
        red, green, blue, count := red - Of(gone, Red), green - Of(gone, Green), blue - Of(gone, Blue), count - 1;
        assert red >= 0 && green >= 0 && blue >= 0;
        assert width <= 0x1010101 ==> Unwrapped(red, green, blue);
      }
      if x + radius + 1 < width {
        var come := src[base + x + radius + 1];
        red, green, blue, count := red + Of(come, Red), green + Of(come, Green), blue + Of(come, Blue), count + 1;
      }
      x := x + 1;
    }
    BlurredAll(dst[base..base + width], line, radius);
  }

  lemma BlurredAll(row: Line, line: Line, r: nat)
    requires |row| == |line| && forall k :: 0 <= k < |line| ==> row[k] == BlurAt(line, k, r)
    ensures row == BlurLine(line, r)
  {
  }

  method BlurRows(dst: array<Pixel>, src: array<Pixel>, width: nat, height: nat, radius: nat)
    requires dst != src && dst.Length == width * height && src.Length == width * height
    modifies dst
    ensures Grid(dst[..], width, height) == Rows(Grid(src[..], width, height), radius)
  {
    var y: nat := 0;
    while y < height
      invariant y <= height
      invariant forall k :: 0 <= k < y ==>
        Row(dst[..], width, height, k) == BlurLine(Row(src[..], width, height, k), radius)
    {
      hide BlurLine;
      RowFits(y, width, height);
      ghost var before := dst[..];
      BlurRow(dst, src, y * width, width, radius);
      assert dst[..][y * width..y * width + width] == dst[y * width..y * width + width];
      assert src[..][y * width..y * width + width] == src[y * width..y * width + width];
      forall k | 0 <= k < y
        ensures Row(dst[..], width, height, k) == Row(before, width, height, k)
      {
        RowAbove(before, dst[..], width, height, y, k);
      }
      y := y + 1;
    }
    assert Grid(dst[..], width, height) == Rows(Grid(src[..], width, height), radius);
  }

  lemma RowAbove(before: Line, after: Line, w: nat, h: nat, y: nat, k: nat)
    requires |before| == |after| == w * h && k < y < h
    requires y * w <= |before| && before[..y * w] == after[..y * w]
    ensures Row(before, w, h, k) == Row(after, w, h, k)
  {
    RowFits(k, w, y);
    RowFits(k, w, h);
    var a, b := k * w, k * w + w;
    assert before[a..b] == before[..y * w][a..b];
    assert after[a..b] == after[..y * w][a..b];
  }

  /** Turns the image on its side. */
  method Transpose(dst: array<Pixel>, src: array<Pixel>, width: nat, height: nat)
    requires dst != src && dst.Length == width * height && src.Length == width * height
    modifies dst
    ensures dst.Length == height * width
    ensures Grid(dst[..], height, width) == Transposed(Grid(src[..], width, height), width, height)
  {
    var y: nat := 0;
    while y < height
      invariant y <= height && Turned(dst[..], src[..], width, height, y, 0)
    {
      var x: nat := 0;
      while x < width
        invariant x <= width && y < height && Turned(dst[..], src[..], width, height, y, x)
      {
        hide At;
        AtFits(y, x, height, width);
        AtFits(x, y, width, height);
        ghost var before := dst[..];
        dst[At(y, x, height)] := src[At(x, y, width)];
        TurnedOne(before, dst[..], src[..], width, height, y, x);
        x := x + 1;
      }
      assert Turned(dst[..], src[..], width, height, y + 1, 0) by { hide At; }
      y := y + 1;
    }
    TurnedAll(dst[..], src[..], width, height);
  }

  /** The rows before y, and the first x pixels of row y, stand turned in dst. */
  predicate Turned(dst: Line, src: Line, w: nat, h: nat, y: nat, x: nat)
    requires |dst| == |src| == w * h
  {
    forall i, j | 0 <= i < w && 0 <= j < h && (j < y || (j == y && i < x)) ::
      0 <= At(j, i, h) < |dst| && 0 <= At(i, j, w) < |src| && dst[At(j, i, h)] == src[At(i, j, w)]
  }

  lemma TurnedOne(before: Line, after: Line, src: Line, w: nat, h: nat, y: nat, x: nat)
    requires |before| == |src| == w * h && x < w && y < h && Turned(before, src, w, h, y, x)
    requires 0 <= At(y, x, h) < |before| && 0 <= At(x, y, w) < |src|
    requires after == before[At(y, x, h) := src[At(x, y, w)]]
    ensures Turned(after, src, w, h, y, x + 1)
  {
    hide At;
    forall i, j | 0 <= i < w && 0 <= j < h && (j < y || (j == y && i < x))
      ensures At(j, i, h) != At(y, x, h)
    {
      if At(j, i, h) == At(y, x, h) { AtDiffers(j, i, y, x, h); }
    }
  }

  lemma TurnedAll(dst: Line, src: Line, w: nat, h: nat)
    requires |dst| == |src| == w * h && Turned(dst, src, w, h, h, 0)
    ensures |dst| == h * w && Grid(dst, h, w) == Transposed(Grid(src, w, h), w, h)
  {
    hide At;
    forall i, j | 0 <= i < w && 0 <= j < h
      ensures Grid(dst, h, w)[i][j] == Transposed(Grid(src, w, h), w, h)[i][j]
    {
      GridAt(dst, h, w, j, i);
      GridAt(src, w, h, i, j);
    }
    SameImage(Grid(dst, h, w), Transposed(Grid(src, w, h), w, h), h, w);
  }

  /* ---- the shrink ---- */

  function Area(width: int, height: int): int { width * height }

  /** The sums and the count of a block's rows before j and, in row j, of its columns before i. */
  predicate Block(img: Image, w: nat, h: nat, x0: int, x1: int, y0: int, j: int, i: int,
                  red: int, green: int, blue: int, count: int)
    requires Sized(img, w, h) && 0 <= x0 <= i <= x1 <= w && 0 <= y0 <= j <= h
  {
    && (j == h ==> i == x0)
    && red == BlockSum(img, w, h, x0, x1, y0, j, Red) + (if i == x0 then 0 else Sum(img[j], x0, i, Red))
    && green == BlockSum(img, w, h, x0, x1, y0, j, Green) + (if i == x0 then 0 else Sum(img[j], x0, i, Green))
    && blue == BlockSum(img, w, h, x0, x1, y0, j, Blue) + (if i == x0 then 0 else Sum(img[j], x0, i, Blue))
    && count == Area(x1 - x0, j - y0) + (i - x0)
  }

  lemma BlockPixel(img: Image, w: nat, h: nat, x0: int, x1: int, y0: int, j: int, i: int,
                   red: int, green: int, blue: int, count: int)
    requires Sized(img, w, h) && 0 <= x0 <= i < x1 <= w && 0 <= y0 <= j < h
    requires Block(img, w, h, x0, x1, y0, j, i, red, green, blue, count)
    ensures var p := img[j][i];
      Block(img, w, h, x0, x1, y0, j, i + 1, red + Of(p, Red), green + Of(p, Green), blue + Of(p, Blue), count + 1)
  {
    hide Of;
    hide BlockSum;
    hide Area;
    forall c: Channel
      ensures Sum(img[j], x0, i + 1, c) == (if i == x0 then 0 else Sum(img[j], x0, i, c)) + Of(img[j][i], c)
    {
    }
  }

  lemma BlockRow(img: Image, w: nat, h: nat, x0: int, x1: int, y0: int, j: int,
                 red: int, green: int, blue: int, count: int)
    requires Sized(img, w, h) && 0 <= x0 <= x1 <= w && 0 <= y0 <= j < h
    requires Block(img, w, h, x0, x1, y0, j, x1, red, green, blue, count)
    ensures Block(img, w, h, x0, x1, y0, j + 1, x0, red, green, blue, count)
  {
    hide Of;
    assert Area(x1 - x0, j - y0) + (x1 - x0) == Area(x1 - x0, j + 1 - y0);
    hide Area;
  }

  /** The complete sums give the block's average. */
  lemma BlockDone(img: Image, w: nat, h: nat, x0: int, x1: int, y0: int, y1: int,
                  red: int, green: int, blue: int, count: int)
    requires Sized(img, w, h) && 0 <= x0 <= x1 <= w && 0 <= y0 <= y1 <= h
    requires Block(img, w, h, x0, x1, y0, y1, x0, red, green, blue, count)
    ensures count != 0 ==> 0 <= red / count <= 255 && 0 <= green / count <= 255 && 0 <= blue / count <= 255
    ensures BlockAverage(img, w, h, x0, x1, y0, y1)
         == if count != 0 then Pack(red / count, green / count, blue / count) else 0xff000000
  {
    hide BlockSum;
    hide Of;
    if x0 < x1 && y0 < y1 {
      assert count > 0;
      assert red / count == BlockMean(img, w, h, x0, x1, y0, y1, Red);
      assert green / count == BlockMean(img, w, h, x0, x1, y0, y1, Green);
      assert blue / count == BlockMean(img, w, h, x0, x1, y0, y1, Blue);
    }
  }

  /** One pixel of the shrunk image: the sums over its block. */
  method Average(src: array<Pixel>, width: nat, height: nat, d: nat, x: nat, y: nat) returns (pixel: Pixel)
    requires d > 0 && src.Length == width * height
    requires x < SmallSize(width, d) && y < SmallSize(height, d)
    ensures pixel == ShrunkAt(Grid(src[..], width, height), width, height, d, x, y)
  {
    hide Grid;
    hide Of;
    ghost var img := Grid(src[..], width, height);
    BlockOf(width, d, x);
    BlockOf(height, d, y);
    var x0, x1, y0, y1 := x * d, Min(width, (x + 1) * d), y * d, Min(height, (y + 1) * d);
    pixel := BlockAt(src, width, height, x0, x1, y0, y1);
  }

  method BlockAt(src: array<Pixel>, width: nat, height: nat, x0: nat, x1: nat, y0: nat, y1: nat) returns (pixel: Pixel)
    requires src.Length == width * height && x0 <= x1 <= width && y0 <= y1 <= height
    ensures pixel == BlockAverage(Grid(src[..], width, height), width, height, x0, x1, y0, y1)
  {
    ghost var img := Grid(src[..], width, height);
    var red, green, blue, count := 0, 0, 0, 0;
    assert Block(img, width, height, x0, x1, y0, y0, x0, red, green, blue, count);
    hide Block;
    hide BlockAverage;
    hide Of;
    hide At;
    hide Grid;
    var j := y0;
    while j < y1
      invariant y0 <= j <= y1 && Block(img, width, height, x0, x1, y0, j, x0, red, green, blue, count)
    {
      var i := x0;
      while i < x1
        invariant x0 <= i <= x1 && Block(img, width, height, x0, x1, y0, j, i, red, green, blue, count)
      {
        GridAt(src[..], width, height, i, j);
        BlockPixel(img, width, height, x0, x1, y0, j, i, red, green, blue, count);
        var p := src[At(i, j, width)];
        red, green, blue, count := red + Of(p, Red), green + Of(p, Green), blue + Of(p, Blue), count + 1;
        i := i + 1;
      }
      BlockRow(img, width, height, x0, x1, y0, j, red, green, blue, count);
      j := j + 1;
    }
    BlockDone(img, width, height, x0, x1, y0, y1, red, green, blue, count);
    pixel := if count != 0 then Pack(red / count, green / count, blue / count) else 0xff000000;
  }

  method Shrink(dst: array<Pixel>, src: array<Pixel>, width: nat, height: nat, d: nat)
    requires dst != src && d > 0 && src.Length == width * height
    requires dst.Length == SmallSize(width, d) * SmallSize(height, d)
    modifies dst
    ensures Grid(dst[..], SmallSize(width, d), SmallSize(height, d))
         == Shrunk(Grid(src[..], width, height), width, height, d)
  {
    var sw, sh := SmallSize(width, d), SmallSize(height, d);
    ghost var small := Shrunk(Grid(src[..], width, height), width, height, d);
    var y: nat := 0;
    while y < sh
      invariant y <= sh && Filled(dst[..], small, sw, sh, y, 0)
    {
      var x: nat := 0;
      while x < sw
        invariant x <= sw && y < sh && Filled(dst[..], small, sw, sh, y, x)
      {
        hide At;
        hide ShrunkAt;
        hide Grid;
        hide SmallSize;
        AtFits(x, y, sw, sh);
        ghost var before := dst[..];
        var pixel := Average(src, width, height, d, x, y);
        dst[At(x, y, sw)] := pixel;
        FilledOne(before, dst[..], small, sw, sh, y, x);
        x := x + 1;
      }
      assert Filled(dst[..], small, sw, sh, y + 1, 0) by { hide At; }
      y := y + 1;
    }
    FilledAll(dst[..], small, sw, sh);
  }

  /** The rows before y, and the first x pixels of row y, are the image's. */
  predicate Filled(dst: Line, img: Image, w: nat, h: nat, y: nat, x: nat)
    requires |dst| == w * h && Sized(img, w, h)
  {
    forall i, j | 0 <= i < w && 0 <= j < h && (j < y || (j == y && i < x)) ::
      0 <= At(i, j, w) < |dst| && dst[At(i, j, w)] == img[j][i]
  }

  lemma FilledOne(before: Line, after: Line, img: Image, w: nat, h: nat, y: nat, x: nat)
    requires |before| == w * h && Sized(img, w, h) && x < w && y < h && Filled(before, img, w, h, y, x)
    requires 0 <= At(x, y, w) < |before| && after == before[At(x, y, w) := img[y][x]]
    ensures Filled(after, img, w, h, y, x + 1)
  {
    hide At;
    forall i, j | 0 <= i < w && 0 <= j < h && (j < y || (j == y && i < x))
      ensures At(i, j, w) != At(x, y, w)
    {
      if At(i, j, w) == At(x, y, w) { AtDiffers(i, j, x, y, w); }
    }
  }

  lemma FilledAll(dst: Line, img: Image, w: nat, h: nat)
    requires |dst| == w * h && Sized(img, w, h) && Filled(dst, img, w, h, h, 0)
    ensures Grid(dst, w, h) == img
  {
    hide At;
    forall i, j | 0 <= i < w && 0 <= j < h
      ensures Grid(dst, w, h)[j][i] == img[j][i]
    {
      GridAt(dst, w, h, i, j);
    }
    SameImage(Grid(dst, w, h), img, w, h);
  }

  /* ---- the pipeline ---- */

  /**
   * The frosted copy of a wallpaper: shrink, blur the rows, turn, blur the
   * rows again, turn back. That is the shrunk image with its rows and then its
   * columns blurred.
   */
  method Frost(wallpaper: array<Pixel>, width: nat, height: nat, radius: int, passes: nat)
    returns (frosted: array<Pixel>, sw: nat, sh: nat)
    requires wallpaper.Length == width * height && width > 0 && height > 0
    ensures sw == SmallSize(width, BlockSize(radius)) && sh == SmallSize(height, BlockSize(radius))
    ensures fresh(frosted) && frosted.Length == sw * sh
    ensures Grid(frosted[..], sw, sh) == Frosted(Grid(wallpaper[..], width, height), width, height, radius, passes)
  {
    hide Grid;
    hide Rows;
    hide Columns;
    hide Transposed;
    hide Shrunk;
    var d, r := BlockSize(radius), PassRadius(radius);
    sw, sh := SmallSize(width, d), SmallSize(height, d);
    ghost var small := Shrunk(Grid(wallpaper[..], width, height), width, height, d);
    var current := new Pixel[sw * sh];
    var scratch := new Pixel[sw * sh];
    Shrink(current, wallpaper, width, height, d);
    var i: nat := 0;
    while i < passes
      invariant i <= passes && current != scratch && fresh(current) && fresh(scratch)
      invariant current.Length == sw * sh && scratch.Length == sw * sh
      invariant Grid(current[..], sw, sh) == RowsTimes(small, sw, sh, r, i)
    {
      BlurRows(scratch, current, sw, sh, r);
      current, scratch := scratch, current;
      i := i + 1;
    }
    ghost var blurred := Grid(current[..], sw, sh);
    Transpose(scratch, current, sw, sh);
    current, scratch := scratch, current;
    i := 0;
    while i < passes
      invariant i <= passes && current != scratch && fresh(current) && fresh(scratch)
      invariant current.Length == sh * sw && scratch.Length == sh * sw
      invariant Grid(current[..], sh, sw) == RowsTimes(Transposed(blurred, sw, sh), sh, sw, r, i)
    {
      BlurRows(scratch, current, sh, sw, r);
      current, scratch := scratch, current;
      i := i + 1;
    }
    Transpose(scratch, current, sh, sw);
    current, scratch := scratch, current;
    TurnedPassesAreColumnPasses(blurred, sw, sh, r, passes);
    frosted := current;
  }
}
