/** The tiled layout as it runs over the clients, and the title bars' tabs. */
module Tiling {
  import opened Division
  import opened TileLayout

  class Client {
    var geom: Box
    const border: nat
    const visible: bool   // on the monitor's current tags
    const loose: bool     // floating or full screen
    const tiled := visible && !loose

    constructor (border: nat, visible: bool, loose: bool)
      ensures this.border == border && this.visible == visible && this.loose == loose
    {
      this.border, this.visible, this.loose, geom := border, visible, loose, Box(0, 0, 0, 0);
    }

    /** client_apply_bounds */
    method ApplyBounds(bounds: Box)
      modifies `geom
      ensures geom == Bounded(old(geom), bounds, border)
    {
      geom := geom.(width := Max(Least(border), geom.width));
      geom := geom.(height := Max(Least(border), geom.height));
      if geom.x >= bounds.x + bounds.width {
        geom := geom.(x := bounds.x + bounds.width - geom.width);
      }
      if geom.y >= bounds.y + bounds.height {
        geom := geom.(y := bounds.y + bounds.height - geom.height);
      }
      if geom.x + geom.width <= bounds.x {
        geom := geom.(x := bounds.x);
      }
      if geom.y + geom.height <= bounds.y {
        geom := geom.(y := bounds.y);
      }
    }

    /** The geometry part of client_resize. */
    method Resize(geo: Box, bounds: Box)
      modifies `geom
      ensures geom == Bounded(geo, bounds, border)
    {
      geom := geo;
      ApplyBounds(bounds);
    }
  }

  /** Borders of the tiled clients, in tiling order. */
  function Borders(clients: seq<Client>): seq<nat> {
    if clients == [] then []
    else (if clients[0].tiled then [clients[0].border] else []) + Borders(clients[1..])
  }

  /** The geometries the layout gives the first i clients. */
  ghost predicate Arranged(clients: seq<Client>, i: nat, tiles: seq<Box>)
    requires i <= |clients|
    reads clients
  {
    forall k :: 0 <= k < i && clients[k].tiled ==>
      TilesBefore(clients, k) < |tiles| && clients[k].geom == tiles[TilesBefore(clients, k)]
  }

  /** How many of the clients before place i are tiled. */
  function TilesBefore(clients: seq<Client>, i: nat): (k: nat)
    requires i <= |clients|
    ensures k == |Borders(clients[..i])|
  {
    |Borders(clients[..i])|
  }

  lemma {:induction false} BordersConcat(a: seq<Client>, b: seq<Client>)
    ensures Borders(a + b) == Borders(a) + Borders(b)
  {
    if a == [] {
      assert a + b == b;
    } else {
      assert (a + b)[1..] == a[1..] + b;
      BordersConcat(a[1..], b);
    }
  }

  /** The tiles before place i, the one at it if it is tiled, and the others. */
  lemma BordersAt(clients: seq<Client>, i: nat)
    requires i < |clients|
    ensures var k := TilesBefore(clients, i);
      && TilesBefore(clients, i + 1) == k + (if clients[i].tiled then 1 else 0)
      && k + (if clients[i].tiled then 1 else 0) <= |Borders(clients)|
      && (clients[i].tiled ==> Borders(clients)[k] == clients[i].border)
  {
    assert clients[..i + 1] == clients[..i] + [clients[i]];
    BordersConcat(clients[..i], [clients[i]]);
    assert [clients[i]][1..] == [];
    assert clients == clients[..i + 1] + clients[i + 1..];
    BordersConcat(clients[..i + 1], clients[i + 1..]);
  }

  method CountTiled(clients: seq<Client>) returns (count: nat)
    ensures count == |Borders(clients)|
  {
    count := 0;
    assert clients[..0] == [];
    for i := 0 to |clients|
      invariant count == TilesBefore(clients, i)
    {
      BordersAt(clients, i);
      if clients[i].tiled {
        count := count + 1;
      }
    }
    assert clients[..|clients|] == clients;
  }

  /** The gap in force: none with gaps off, or with as many tiles as smart gaps asks for. */
  function GapInForce(gapSize: nat, gaps: bool, smartGaps: nat, count: nat): nat {
    if gaps && smartGaps != count then gapSize else 0
  }

  /** What the loop still has to place, once k tiles are done and the columns have grown to masterY and stackY. */
  function RestTiles(borders: seq<nat>, k: nat, area: Box, nmaster: nat, width: int, gap: nat,
                     masterY: int, stackY: int): seq<Box>
    requires k <= |borders|
  {
    var m := Min(|borders|, nmaster);
    if k < m
    then Column(borders[k..m], area, area.x + gap, masterY, width - 2 * gap, gap) +
         Column(borders[m..], area, area.x + width, stackY, area.width - width - gap, gap)
    else Column(borders[k..], area, area.x + width, stackY, area.width - width - gap, gap)
  }

  /** One tile more. */
  lemma PlaceOne(borders: seq<nat>, k: nat, area: Box, nmaster: nat, width: int, gap: nat, masterY: int, stackY: int)
    requires k < |borders|
    ensures var m := Min(|borders|, nmaster);
      var box := if k < nmaster
        then Bounded(Box(area.x + gap, area.y + masterY, width - 2 * gap,
                         Max(1, Share(area, masterY, gap, m - k))), area, borders[k])
        else Bounded(Box(area.x + width, area.y + stackY, area.width - width - gap,
                         Max(1, Share(area, stackY, gap, |borders| - k))), area, borders[k]);
      RestTiles(borders, k, area, nmaster, width, gap, masterY, stackY)
      == [box] + (if k < nmaster
           then RestTiles(borders, k + 1, area, nmaster, width, gap, masterY + box.height + gap, stackY)
           else RestTiles(borders, k + 1, area, nmaster, width, gap, masterY, stackY + box.height + gap))
  {
    hide Bounded;
    hide Share;
    var m := Min(|borders|, nmaster);
    assert borders[k..][1..] == borders[k + 1..];
    if k < m {
      assert borders[k..m][1..] == borders[k + 1..m];
    }
  }

  /** Places tile number index and moves its column on. */
  method PlaceTile(client: Client, index: nat, area: Box, nmaster: nat, count: nat, width: int, gap: nat,
                   masterY: int, stackY: int, ghost borders: seq<nat>) returns (nextMaster: int, nextStack: int)
    requires index < |borders| == count && borders[index] == client.border
    modifies client`geom
    ensures RestTiles(borders, index, area, nmaster, width, gap, masterY, stackY)
         == [client.geom] + RestTiles(borders, index + 1, area, nmaster, width, gap, nextMaster, nextStack)
  {
    hide RestTiles;
    PlaceOne(borders, index, area, nmaster, width, gap, masterY, stackY);
    nextMaster, nextStack := masterY, stackY;
    if index < nmaster {
      var remaining := Min(count, nmaster) - index;
      client.Resize(Box(area.x + gap, area.y + masterY, width - 2 * gap,
                        Max(1, Share(area, masterY, gap, remaining))), area);
      nextMaster := masterY + client.geom.height + gap;
    } else {
      var remaining := count - index;
      client.Resize(Box(area.x + width, area.y + stackY, area.width - width - gap,
                        Max(1, Share(area, stackY, gap, remaining))), area);
      nextStack := stackY + client.geom.height + gap;
    }
  }

  /**
   * layout_tile: every tiled client gets its tile, in tiling order; the
   * others are left alone. rounded is the master column's share of the width
   * as the float arithmetic rounds it.
   */
  method Arrange(clients: seq<Client>, area: Box, nmaster: nat, rounded: int,
                 gapSize: nat, gaps: bool, smartGaps: nat)
    requires forall i, j :: 0 <= i < j < |clients| ==> clients[i] != clients[j]
    modifies clients
    ensures var borders := Borders(clients); var n := |borders|;
      var tiles := Tiles(borders, area, nmaster, MasterWidth(n, nmaster, area, rounded),
                         GapInForce(gapSize, gaps, smartGaps, n));
      Arranged(clients, |clients|, tiles)
    ensures forall i :: 0 <= i < |clients| && !clients[i].tiled ==> clients[i].geom == old(clients[i].geom)
  {
    hide Borders;
    hide Tiles;
    hide Column;
    hide RestTiles;
    hide Bounded;
    hide Share;
    ghost var borders := Borders(clients);
    var count := CountTiled(clients);
    var gap := if gaps && smartGaps != count then gapSize else 0;
    var width := MasterWidth(count, nmaster, area, rounded);
    ghost var tiles := Tiles(borders, area, nmaster, width, gap);
    var index: nat := 0;
    var masterY, stackY := gap, gap;
    RestIsAll(borders, area, nmaster, width, gap);
    NoneBefore(clients);
    var i: nat := 0;
    while i < |clients|
      invariant i <= |clients| && index == TilesBefore(clients, i) <= count
      invariant tiles[index..] == RestTiles(borders, index, area, nmaster, width, gap, masterY, stackY)
      invariant Arranged(clients, i, tiles)
      invariant forall k :: 0 <= k < |clients| && (k >= i || !clients[k].tiled) ==>
        clients[k].geom == old(clients[k].geom)
    {
      var client := clients[i];
      BordersAt(clients, i);
      if client.tiled {
        HeadOfRest(tiles, index);
        masterY, stackY := PlaceTile(client, index, area, nmaster, count, width, gap, masterY, stackY, borders);
        index := index + 1;
      }
      i := i + 1;
    }
  }

  lemma NoneBefore(clients: seq<Client>)
    ensures TilesBefore(clients, 0) == 0
  {
    assert clients[..0] == [];
  }

  lemma HeadOfRest(tiles: seq<Box>, k: nat)
    requires k < |tiles|
    ensures tiles[k..] == [tiles[k]] + tiles[k + 1..]
  {
  }

  lemma RestIsAll(borders: seq<nat>, area: Box, nmaster: nat, width: int, gap: nat)
    ensures RestTiles(borders, 0, area, nmaster, width, gap, gap, gap) == Tiles(borders, area, nmaster, width, gap)[0..]
  {
    var m := Min(|borders|, nmaster);
    assert borders[0..m] == borders[..m] && borders[0..] == borders;
    if m == 0 { assert borders[m..] == borders; }
  }

  /* ---- tabs ---- */

  /** Where tab number i of n starts in a row of the given width. */
  function TabStart(width: nat, n: nat, i: nat): int
    requires n > 0
  {
    width * i / n
  }

  /** The tabs fill the row from its start to its end, and their widths differ by at most one. */
  lemma TabsFillTheRow(width: nat, n: nat, i: nat)
    requires i < n
    ensures TabStart(width, n, 0) == 0 && TabStart(width, n, n) == width
    ensures width / n <= TabStart(width, n, i + 1) - TabStart(width, n, i) <= width / n + 1
  {
    assert width * 0 == 0;
    DivIs(width * n, n, width, 0);
    assert width * (i + 1) == width * i + width;
    DivOfSum(width * i, width, n);
  }

  /** bar_place_title_bar: where a client's title bar starts and how wide it is. */
  method PlaceTitleBar(clients: seq<Client>, k: nat, tabbed: bool, width: nat) returns (x: int, w: int)
    requires k < |clients| && forall i, j :: 0 <= i < j < |clients| ==> clients[i] != clients[j]
    ensures var n := |Borders(clients)|;
      if tabbed && !clients[k].loose && n > 0
      then var i := if clients[k].tiled then TilesBefore(clients, k) else 0;
        i < n && x == TabStart(width, n, i) && x + w == TabStart(width, n, i + 1)
      else x == 0 && w == width
  {
    x, w := 0, width;
    if tabbed && !clients[k].loose {
      var index, count := 0, 0;
      NoneBefore(clients);
      BordersAt(clients, k);
      for i := 0 to |clients|
        invariant count == TilesBefore(clients, i)
        invariant index == if i > k && clients[k].tiled then TilesBefore(clients, k) else 0
      {
        BordersAt(clients, i);
        if clients[i].tiled {
          if clients[i] == clients[k] {
            index := count;
          }
          count := count + 1;
        }
      }
      assert clients[..|clients|] == clients;
      if count > 0 {
        x := width * index / count;
        w := width * (index + 1) / count - x;
      }
    }
  }
}
