/** Pixels of packed 8-bit channels, and images as rows of them. */
module Pixels {
  import opened Division

  type Pixel = p: int | 0 <= p < 0x1_0000_0000

  type Line = seq<Pixel>
  type Image = seq<Line>

  datatype Channel = Red | Green | Blue

  function Of(p: Pixel, c: Channel): (v: int)
    ensures 0 <= v <= 255
  {
    match c
    case Red => p / 0x10000 % 0x100
    case Green => p / 0x100 % 0x100
    case Blue => p % 0x100
  }

  /** The opaque pixel with these channels; an or of disjoint bits is a sum. */
  function Pack(red: int, green: int, blue: int): Pixel
    requires 0 <= red <= 255 && 0 <= green <= 255 && 0 <= blue <= 255
  {
    0xff000000 + red * 0x10000 + green * 0x100 + blue
  }

  predicate Opaque(p: Pixel) { p >= 0xff000000 }

  lemma PackThenOf(red: int, green: int, blue: int)
    requires 0 <= red <= 255 && 0 <= green <= 255 && 0 <= blue <= 255
    ensures var p := Pack(red, green, blue);
      Opaque(p) && Of(p, Red) == red && Of(p, Green) == green && Of(p, Blue) == blue
  {
    var p := Pack(red, green, blue);
    DivIs(p, 0x10000, 0xff00 + red, green * 0x100 + blue);
    DivIs(0xff00 + red, 0x100, 0xff, red);
    DivIs(p, 0x100, 0xff0000 + red * 0x100 + green, blue);
    DivIs(0xff0000 + red * 0x100 + green, 0x100, 0xff00 + red, green);
  }

  lemma OfThenPack(p: Pixel)
    requires Opaque(p)
    ensures Pack(Of(p, Red), Of(p, Green), Of(p, Blue)) == p
  {
  }

  /** An image of h rows of w pixels. */
  predicate Sized(img: Image, w: nat, h: nat) {
    |img| == h && forall y :: 0 <= y < h ==> |img[y]| == w
  }

  /** Where the pixel at (x, y) lies in a buffer of rows of w pixels. */
  function At(x: int, y: int, w: int): int { y * w + x }

  lemma AtFits(x: int, y: int, w: int, h: int)
    requires 0 <= x < w && 0 <= y < h
    ensures 0 <= At(x, y, w) < w * h
  {
    assert w * h - w * (y + 1) == w * (h - (y + 1)) >= 0 by {
      var a, b := w, h - (y + 1);
      assert a * b >= 0;
    }
    assert y * w >= 0;
    assert w * (y + 1) == y * w + w;
  }

  lemma AtDiffers(x: int, y: int, x': int, y': int, w: int)
    requires 0 <= x < w && 0 <= x' < w && At(x, y, w) == At(x', y', w)
    ensures x == x' && y == y'
  {
    var d := y' - y;
    assert w * d == x - x';
    if d >= 1 {
      MulGrows(w, d, 1);
    } else if d <= -1 {
      MulGrows(w, -1, d);
    }
  }

  lemma RowFits(y: int, w: int, h: int)
    requires 0 <= w && 0 <= y < h
    ensures 0 <= y * w <= y * w + w <= w * h
  {
    var rest := h - (y + 1);
    assert rest * w >= 0;
    assert y * w >= 0;
    assert w * h == rest * w + y * w + w;
  }

  function Row(flat: Line, w: nat, h: nat, y: nat): (row: Line)
    requires |flat| == w * h && y < h
    ensures |row| == w
  {
    RowFits(y, w, h);
    flat[y * w..y * w + w]
  }

  /** The image in a buffer of h rows of w pixels. */
  function Grid(flat: Line, w: nat, h: nat): (img: Image)
    requires |flat| == w * h
    ensures Sized(img, w, h)
  {
    seq(h, y requires 0 <= y < h => Row(flat, w, h, y))
  }

  lemma GridAt(flat: Line, w: nat, h: nat, x: nat, y: nat)
    requires |flat| == w * h && x < w && y < h
    ensures 0 <= At(x, y, w) < |flat| && Grid(flat, w, h)[y][x] == flat[At(x, y, w)]
  {
    AtFits(x, y, w, h);
    RowFits(y, w, h);
  }

  /** Two images of one size with the same pixels are equal. */
  lemma SameImage(a: Image, b: Image, w: nat, h: nat)
    requires Sized(a, w, h) && Sized(b, w, h)
    requires forall x, y :: 0 <= x < w && 0 <= y < h ==> a[y][x] == b[y][x]
    ensures a == b
  {
    assert forall y :: 0 <= y < h ==> a[y] == b[y];
  }
}
