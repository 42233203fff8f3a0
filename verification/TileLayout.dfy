/** The tiled layout's arithmetic: where each client goes, and what that amounts to. */
module TileLayout {
  import opened Division

  datatype Box = Box(x: int, y: int, width: int, height: int)

  /** The smallest size a client with a border can have. */
  function Least(border: nat): int { 1 + 2 * border }

  /** A client's geometry brought up to its least size and back to the bounding box. */
  function Bounded(geom: Box, bounds: Box, border: nat): Box {
    var w, h := Max(Least(border), geom.width), Max(Least(border), geom.height);
    var x := if geom.x >= bounds.x + bounds.width then bounds.x + bounds.width - w else geom.x;
    var y := if geom.y >= bounds.y + bounds.height then bounds.y + bounds.height - h else geom.y;
    Box(if x + w <= bounds.x then bounds.x else x, if y + h <= bounds.y then bounds.y else y, w, h)
  }

  /** The share of the height left at y for the first of the remaining clients. */
  function Share(area: Box, y: int, gap: nat, remaining: nat): int
    requires remaining > 0
  {
    (area.height - y - gap * remaining) / remaining
  }

  /** A column of clients with these borders, from y down. */
  function Column(borders: seq<nat>, area: Box, x: int, y: int, width: int, gap: nat): (boxes: seq<Box>)
    ensures |boxes| == |borders|
    decreases |borders|
  {
    if borders == [] then []
    else
      var box := Bounded(Box(x, area.y + y, width, Max(1, Share(area, y, gap, |borders|))), area, borders[0]);
      [box] + Column(borders[1..], area, x, y + box.height + gap, width, gap)
  }

  /** The width of the master column; rounded is its share of the area as the float arithmetic rounds it. */
  function MasterWidth(count: nat, nmaster: nat, area: Box, rounded: int): int {
    if count > nmaster then (if nmaster > 0 then rounded else 0) else area.width
  }

  /** All tiles: the masters in their column, the others in the stack beside it. */
  function Tiles(borders: seq<nat>, area: Box, nmaster: nat, masterWidth: int, gap: nat): (boxes: seq<Box>)
    ensures |boxes| == |borders|
  {
    var m := Min(|borders|, nmaster);
    Column(borders[..m], area, area.x + gap, gap, masterWidth - 2 * gap, gap) +
    Column(borders[m..], area, area.x + masterWidth, gap, area.width - masterWidth - gap, gap)
  }

  /* ---- one column ---- */

  /** The column has room for every client's least size and the gaps. */
  predicate ColumnFits(borders: seq<nat>, area: Box, x: int, y: int, width: int, gap: nat, q: int) {
    && (forall i :: 0 <= i < |borders| ==> Least(borders[i]) <= q && Least(borders[i]) <= width)
    && |borders| * q <= area.height - y - gap * |borders| <= |borders| * (q + 1)
    && area.x <= x && x + width <= area.x + area.width && 0 <= y
  }

  /** The share is q or q + 1, and the same holds for what is left below it. */
  lemma FirstShare(height: int, y: int, gap: nat, n: nat, q: int)
    requires n > 0 && q >= 0 && n * q <= height - y - gap * n <= n * (q + 1)
    ensures var h := (height - y - gap * n) / n; var y' := y + h + gap;
      && q <= h <= q + 1
      && (n - 1) * q <= height - y' - gap * (n - 1) <= (n - 1) * (q + 1)
      && y' <= height && (n == 1 ==> y' == height)
  {
    var pool := height - y - gap * n;
    var h := pool / n;
    assert q <= h <= q + 1 by { DivBounds(pool, n, q, q + 1); }
    assert (n - 1) * q <= pool - h <= (n - 1) * (q + 1) by { PoolAfter(pool, n, q, h); }
    assert gap * n == gap * (n - 1) + gap && gap * (n - 1) >= 0 by { OneLess(gap, n); }
    assert (n - 1) * q >= 0 by { MulGrows(n - 1, q, 0); }
    if n == 1 {
      DivIs(pool, 1, pool, 0);
      assert gap * 0 == 0;
    }
  }

  /** The first box of a column that fits: Bounded leaves it alone. */
  lemma FirstOfColumn(borders: seq<nat>, area: Box, x: int, y: int, width: int, gap: nat, q: int)
    requires borders != [] && ColumnFits(borders, area, x, y, width, gap, q)
    ensures var h := Share(area, y, gap, |borders|);
      && q <= h <= q + 1
      && Column(borders, area, x, y, width, gap)
         == [Box(x, area.y + y, width, h)] + Column(borders[1..], area, x, y + h + gap, width, gap)
      && ColumnFits(borders[1..], area, x, y + h + gap, width, gap, q)
      && (|borders| == 1 ==> y + h + gap == area.height)
  {
    assert Least(borders[0]) <= q;
    FirstShare(area.height, y, gap, |borders|, q);
  }

  /** What is left after a share still lies between the same multiples. */
  lemma PoolAfter(pool: int, n: int, q: int, h: int)
    requires n > 0 && n * q <= pool <= n * (q + 1) && h == pool / n && q <= h <= q + 1
    ensures (n - 1) * q <= pool - h <= (n - 1) * (q + 1)
  {
    assert (n - 1) * q == n * q - q;
    assert (n - 1) * (q + 1) == n * (q + 1) - (q + 1);
    if h == q {
      assert pool < n * (q + 1) by {
        if pool == n * (q + 1) { DivIs(pool, n, q + 1, 0); }
      }
    } else {
      assert pool >= n * (q + 1);
    }
  }

  /** A column of boxes as it should be. */
  predicate Stacked(boxes: seq<Box>, area: Box, x: int, y: int, width: int, gap: nat, q: int) {
    && (forall i :: 0 <= i < |boxes| ==>
          boxes[i].x == x && boxes[i].width == width && q <= boxes[i].height <= q + 1)
    && (boxes != [] ==> boxes[0].y == area.y + y)
    && (forall i :: 0 <= i < |boxes| - 1 ==> boxes[i + 1].y == boxes[i].y + boxes[i].height + gap)
    && (boxes != [] ==>
          boxes[|boxes| - 1].y + boxes[|boxes| - 1].height + gap == area.y + area.height)
  }

  /**
   * In a column that fits, heights differ by at most one, the boxes are
   * exactly a gap apart, and the last one ends a gap above the bottom.
   */
  lemma {:induction false} ColumnStacks(borders: seq<nat>, area: Box, x: int, y: int, width: int, gap: nat, q: int)
    requires ColumnFits(borders, area, x, y, width, gap, q)
    ensures Stacked(Column(borders, area, x, y, width, gap), area, x, y, width, gap, q)
    decreases |borders|
  {
    if borders != [] {
      FirstOfColumn(borders, area, x, y, width, gap, q);
      ColumnStacks(borders[1..], area, x, y + Share(area, y, gap, |borders|) + gap, width, gap, q);
    }
  }

  lemma {:induction false} StackedApart(boxes: seq<Box>, area: Box, x: int, y: int, width: int, gap: nat, q: int,
                                        i: nat, j: nat)
    requires Stacked(boxes, area, x, y, width, gap, q) && q >= 0 && i <= j < |boxes|
    ensures i < j ==> boxes[i].y + boxes[i].height + gap <= boxes[j].y
    ensures boxes[i].y <= boxes[j].y
    decreases j - i
  {
    if i < j {
      StackedApart(boxes, area, x, y, width, gap, q, i + 1, j);
    }
  }

  predicate Disjoint(a: Box, b: Box) {
    a.x + a.width <= b.x || b.x + b.width <= a.x || a.y + a.height <= b.y || b.y + b.height <= a.y
  }

  predicate Inside(b: Box, area: Box) {
    area.x <= b.x && area.y <= b.y && b.x + b.width <= area.x + area.width && b.y + b.height <= area.y + area.height
  }

  /** Some column has room: the height its clients share is at least everyone's least size. */
  predicate Roomy(borders: seq<nat>, height: int, width: int, gap: nat) {
    forall i :: 0 <= i < |borders| ==>
      Least(borders[i]) <= width && Least(borders[i]) <= (height - gap - gap * |borders|) / |borders|
  }

  /** The area fits the least sizes of all the clients. */
  predicate AllFit(borders: seq<nat>, area: Box, nmaster: nat, rounded: int, gap: nat) {
    var m := Min(|borders|, nmaster);
    var w := MasterWidth(|borders|, nmaster, area, rounded);
    && Roomy(borders[..m], area.height, w - 2 * gap, gap)
    && Roomy(borders[m..], area.height, area.width - w - gap, gap)
  }

  function EvenShare(count: nat, height: int, gap: nat): int {
    if count == 0 then 0 else (height - gap - gap * count) / count
  }

  lemma RoomyFits(borders: seq<nat>, area: Box, x: int, width: int, gap: nat)
    requires Roomy(borders, area.height, width, gap)
    requires borders != [] ==> area.x <= x && x + width <= area.x + area.width
    ensures var q := EvenShare(|borders|, area.height, gap);
      Stacked(Column(borders, area, x, gap, width, gap), area, x, gap, width, gap, q) && q >= 0
  {
    if borders != [] {
      var n := |borders|;
      var q := EvenShare(n, area.height, gap);
      assert Least(borders[0]) <= q;
      assert n * (q + 1) == n * q + n;
      ColumnStacks(borders, area, x, gap, width, gap, q);
    }
  }

  /**
   * When everything fits: each column is stacked exactly, with the masters
   * from one gap inside the left edge and the stack exactly one gap right of
   * them and one gap inside the right edge. No two tiles overlap and none
   * leaves the area.
   */
  lemma ExactTiling(borders: seq<nat>, area: Box, nmaster: nat, rounded: int, gap: nat)
    requires AllFit(borders, area, nmaster, rounded, gap)
    ensures var m := Min(|borders|, nmaster);
      var w := MasterWidth(|borders|, nmaster, area, rounded);
      var tiles := Tiles(borders, area, nmaster, w, gap);
      && Stacked(tiles[..m], area, area.x + gap, gap, w - 2 * gap, gap, EvenShare(m, area.height, gap))
      && Stacked(tiles[m..], area, area.x + w, gap, area.width - w - gap, gap,
                 EvenShare(|borders| - m, area.height, gap))
      && (forall i :: 0 <= i < |tiles| ==> Inside(tiles[i], area))
      && (forall i, j :: 0 <= i < j < |tiles| ==> Disjoint(tiles[i], tiles[j]))
  {
    hide Column;
    hide Stacked;
    hide Inside;
    hide Disjoint;
    hide EvenShare;
    hide Tiles;
    var m := Min(|borders|, nmaster);
    var w := MasterWidth(|borders|, nmaster, area, rounded);
    var masters := Column(borders[..m], area, area.x + gap, gap, w - 2 * gap, gap);
    var stack := Column(borders[m..], area, area.x + w, gap, area.width - w - gap, gap);
    TilesInTwoColumns(borders, area, nmaster, w, gap);
    assert m > 0 ==> Least(borders[..m][0]) <= w - 2 * gap;
    assert m < |borders| ==> Least(borders[m..][0]) <= area.width - w - gap;
    RoomyFits(borders[..m], area, area.x + gap, w - 2 * gap, gap);
    RoomyFits(borders[m..], area, area.x + w, area.width - w - gap, gap);
    ColumnsApart(masters, stack, area, area.x + gap, area.x + w, w - 2 * gap, area.width - w - gap, gap,
                 EvenShare(m, area.height, gap), EvenShare(|borders| - m, area.height, gap));
  }

  lemma TilesInTwoColumns(borders: seq<nat>, area: Box, nmaster: nat, w: int, gap: nat)
    ensures var m := Min(|borders|, nmaster);
      var masters := Column(borders[..m], area, area.x + gap, gap, w - 2 * gap, gap);
      var stack := Column(borders[m..], area, area.x + w, gap, area.width - w - gap, gap);
      var tiles := Tiles(borders, area, nmaster, w, gap);
      tiles == masters + stack && tiles[..m] == masters && tiles[m..] == stack
  {
    hide Column;
  }

  /** Two stacked columns, the second right of the first. */
  lemma ColumnsApart(a: seq<Box>, b: seq<Box>, area: Box, ax: int, bx: int, aw: int, bw: int, gap: nat, q: int, r: int)
    requires Stacked(a, area, ax, gap, aw, gap, q) && Stacked(b, area, bx, gap, bw, gap, r) && q >= 0 && r >= 0
    requires a != [] ==> area.x <= ax && ax + aw <= area.x + area.width
    requires b != [] ==> area.x <= bx && bx + bw <= area.x + area.width
    requires a != [] && b != [] ==> ax + aw <= bx
    ensures forall i :: 0 <= i < |a + b| ==> Inside((a + b)[i], area)
    ensures forall i, j :: 0 <= i < j < |a + b| ==> Disjoint((a + b)[i], (a + b)[j])
  {
    ColumnInside(a, area, ax, aw, gap, q);
    ColumnInside(b, area, bx, bw, gap, r);
    ColumnDisjoint(a, area, ax, aw, gap, q);
    ColumnDisjoint(b, area, bx, bw, gap, r);
    hide Stacked;
    hide Inside;
    PairwiseOverBoth(a, b);
  }

  lemma PairwiseOverBoth(a: seq<Box>, b: seq<Box>)
    requires forall i, j :: 0 <= i < j < |a| ==> Disjoint(a[i], a[j])
    requires forall i, j :: 0 <= i < j < |b| ==> Disjoint(b[i], b[j])
    requires forall i, j :: 0 <= i < |a| && 0 <= j < |b| ==> Disjoint(a[i], b[j])
    ensures forall i, j :: 0 <= i < j < |a + b| ==> Disjoint((a + b)[i], (a + b)[j])
  {
    hide Disjoint;
  }

  lemma ColumnDisjoint(boxes: seq<Box>, area: Box, x: int, width: int, gap: nat, q: int)
    requires Stacked(boxes, area, x, gap, width, gap, q) && q >= 0
    ensures forall i, j :: 0 <= i < j < |boxes| ==> Disjoint(boxes[i], boxes[j])
    ensures forall i :: 0 <= i < |boxes| ==> boxes[i].x == x && boxes[i].width == width
  {
    forall i, j | 0 <= i < j < |boxes|
      ensures Disjoint(boxes[i], boxes[j])
    {
      StackedApart(boxes, area, x, gap, width, gap, q, i, j);
    }
  }

  lemma ColumnInside(boxes: seq<Box>, area: Box, x: int, width: int, gap: nat, q: int)
    requires Stacked(boxes, area, x, gap, width, gap, q) && q >= 0
    requires boxes != [] ==> area.x <= x && x + width <= area.x + area.width
    ensures forall i :: 0 <= i < |boxes| ==> Inside(boxes[i], area)
  {
    forall i | 0 <= i < |boxes|
      ensures Inside(boxes[i], area)
    {
      StackedApart(boxes, area, x, gap, width, gap, q, 0, i);
      StackedApart(boxes, area, x, gap, width, gap, q, i, |boxes| - 1);
    }
  }
}
