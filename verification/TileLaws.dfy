/** Where the columns of the tiled layout reach, and what keeping a window on the screen does to it. */
module TileLaws {
  import opened Division
  import opened TileLayout
  import opened Tiling

  predicate Spans(boxes: seq<Box>, left: int, right: int) {
    forall i :: 0 <= i < |boxes| ==> boxes[i].x == left && boxes[i].x + boxes[i].width == right
  }

  /** With masters only, their column reaches from one gap inside the left edge to one inside the right. */
  lemma MastersFillTheWidth(borders: seq<nat>, area: Box, nmaster: nat, rounded: int, gap: nat)
    requires AllFit(borders, area, nmaster, rounded, gap) && |borders| <= nmaster
    ensures Spans(Tiles(borders, area, nmaster, MasterWidth(|borders|, nmaster, area, rounded), gap),
                  area.x + gap, area.x + area.width - gap)
  {
    ExactTiling(borders, area, nmaster, rounded, gap);
    hide Tiles;
    hide AllFit;
    var tiles := Tiles(borders, area, nmaster, MasterWidth(|borders|, nmaster, area, rounded), gap);
    assert tiles[..|borders|] == tiles;
  }

  /** Without masters the stack has it all, from the very left edge to one gap inside the right. */
  lemma StackFillsTheWidth(borders: seq<nat>, area: Box, rounded: int, gap: nat)
    requires AllFit(borders, area, 0, rounded, gap) && borders != []
    ensures Spans(Tiles(borders, area, 0, MasterWidth(|borders|, 0, area, rounded), gap),
                  area.x, area.x + area.width - gap)
  {
    ExactTiling(borders, area, 0, rounded, gap);
    hide Tiles;
    hide AllFit;
    var tiles := Tiles(borders, area, 0, MasterWidth(|borders|, 0, area, rounded), gap);
    assert tiles[0..] == tiles;
  }

  /** With both, the masters end one gap short of the share of the width that is theirs, where the stack begins. */
  lemma ColumnsShareTheWidth(borders: seq<nat>, area: Box, nmaster: nat, rounded: int, gap: nat)
    requires AllFit(borders, area, nmaster, rounded, gap) && 0 < nmaster < |borders|
    ensures var tiles := Tiles(borders, area, nmaster, MasterWidth(|borders|, nmaster, area, rounded), gap);
      && Spans(tiles[..nmaster], area.x + gap, area.x + rounded - gap)
      && Spans(tiles[nmaster..], area.x + rounded, area.x + area.width - gap)
  {
    ExactTiling(borders, area, nmaster, rounded, gap);
    hide Tiles;
    hide AllFit;
  }

  /** With smart gaps for one client, or no gaps, a lone client that fits has the whole area. */
  lemma LoneClientFills(border: nat, area: Box, nmaster: nat, rounded: int, gapSize: nat, gaps: bool, smartGaps: nat)
    requires nmaster > 0 && (!gaps || smartGaps == 1)
    requires Least(border) <= area.width && Least(border) <= area.height
    ensures Tiles([border], area, nmaster, MasterWidth(1, nmaster, area, rounded),
                  GapInForce(gapSize, gaps, smartGaps, 1)) == [area]
  {
    assert Share(area, 0, 0, 1) == area.height by { DivIs(area.height, 1, area.height, 0); }
    assert [border][..1] == [border] && [border][1..] == [];
    assert Bounded(area, area, border) == area;
    assert Column([border], area, area.x, 0, area.width, 0) == [area];
  }

  /** What a window's place and size on one axis become. */
  predicate Kept(at: int, size: int, low: int, room: int, at': int) {
    && (at >= low + room ==> at' + size == low + room)
    && (at + size <= low && at < low + room ==> at' == low)
    && (low - size < at < low + room ==> at' == at)
  }

  /**
   * A window gets at least its least size. One that is off the area comes
   * back to the edge it was past, so that it meets the area; any other stays.
   */
  lemma BoundedMeets(geom: Box, bounds: Box, border: nat)
    requires bounds.width > 0 && bounds.height > 0
    ensures var r := Bounded(geom, bounds, border);
      && (if geom.width >= Least(border) then r.width == geom.width else r.width == 1 + 2 * border)
      && (if geom.height >= Least(border) then r.height == geom.height else r.height == 1 + 2 * border)
      && Kept(geom.x, r.width, bounds.x, bounds.width, r.x) && Kept(geom.y, r.height, bounds.y, bounds.height, r.y)
      && !Disjoint(r, bounds)
  {
  }

  /** Bringing it back twice is bringing it back once. */
  lemma BoundedTwice(geom: Box, bounds: Box, border: nat)
    requires bounds.width > 0 && bounds.height > 0
    ensures Bounded(Bounded(geom, bounds, border), bounds, border) == Bounded(geom, bounds, border)
  {
  }
}
