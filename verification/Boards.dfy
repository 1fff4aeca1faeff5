/** The boards that the loader sees on Wormhole and Grayskull: broadcasts reach every tensix tile
    of every harvesting mask, so broadcast loading agrees with loading tile by tile. */
module Boards {
  import opened Coords
  import opened NocGrid
  import opened LoaderModel
  import opened LoaderSafety
  import LoaderContents
  import opened Wrappers
  import WormholeGrid
  import GrayskullGrid

  /** The rectangles written into the source; the Wormhole one for network 0 leaves out column 0. */
  function Wormhole(g: WormholeGrid.Grid): Board {
    Board(Places(Addresses(g.tensix)), 10, 12, Rect((1, 0), (9, 11)), Rect((0, 0), (9, 11)))
  }

  function Grayskull(g: GrayskullGrid.Grid): Board {
    Board(Places(Addresses(g.tensix)), 13, 12, Rect((0, 0), (12, 11)), Rect((0, 0), (12, 11)))
  }

  /** The board's idea of a tile's place on a network is the address that the grid gives it. */
  lemma SamePlaces(size: Size, b: Board, t: Coord)
    requires size.Has(t) && b.sizeX == size.x && b.sizeY == size.y
    ensures b.On(Noc0, t) == size.Address(t).n0 && b.On(Noc1, t) == size.Address(t).n1
  {
  }

  /** On Wormhole a broadcast on network 0 reaches everything but column 0; on network 1 it
      reaches the whole grid. */
  lemma WormholeReach(g: WormholeGrid.Grid, t: Coord)
    ensures Wormhole(g).Reached(Noc0, t) <==> 1 <= t.0 < 10 && t.1 < 12
    ensures Wormhole(g).Reached(Noc1, t) <==> t.0 < 10 && t.1 < 12
  {
  }

  lemma GrayskullReach(g: GrayskullGrid.Grid, noc: NocId, t: Coord)
    ensures Grayskull(g).Reached(noc, t) <==> t.0 < 13 && t.1 < 12
  {
  }

  /** In an all-tiles load on Wormhole the image goes to the whole grid and the stop to all but
      column 0, so column 0 is exactly what is written without being stopped. */
  lemma WormholeUnstopped(g: WormholeGrid.Grid, t: Coord)
    ensures Wormhole(g).Reached(Noc1, t) && !StopReaches(Wormhole(g), None, t) <==> t.0 == 0 && t.1 < 12
  {
    hide Board.Reached;
    WormholeReach(g, t);
  }

  /** On Grayskull every tile that the image reaches has been stopped. */
  lemma GrayskullUnstopped(g: GrayskullGrid.Grid, t: Coord)
    ensures Grayskull(g).Reached(Noc1, t) <==> StopReaches(Grayskull(g), None, t)
  {
    hide Board.Reached;
    GrayskullReach(g, Noc0, t);
    GrayskullReach(g, Noc1, t);
  }

  /** What an all-tiles load does to a running tile of a Wormhole chip, usable, harvested or of
      another kind: at every image write it is in reset exactly when it is not in column 0. */
  lemma WormholeUnderResetIff(
    g: WormholeGrid.Grid, c: Chip, image: seq<Segment>, pokes: seq<Op>, wait: bool, steps: seq<Step>, k: nat,
    t: Coord)
    requires AvoidsReset(image) && OnlyPokes(pokes)
    requires Ops(steps) == LoadPlan(Wormhole(g), None, image, pokes, wait)
    requires k < |steps| && IsLoad(steps[k].op)
    requires t.0 < 10 && t.1 < 12 && t in c.mem && !InReset(c.mem[t])
    requires forall i :: 0 <= i <= k ==> t !in steps[i].changes
    ensures InReset(Drift(ExecAll(Wormhole(g), c, steps[..k]), steps[k].changes).mem[t]) <==> t.0 != 0
  {
    hide InReset, ExecAll, LoadPlan, Board.Reached, Wormhole;
    WormholeReach(g, t);
    UnderResetIff(Wormhole(g), c, image, pokes, wait, steps, k, t);
  }

  lemma WormholeCovers(harvest: Mask, g: WormholeGrid.Grid)
    requires WormholeGrid.IsGrid(harvest, g)
    ensures Wormhole(g).Valid() && Wormhole(g).CoversTensix()
  {
    hide WormholeGrid.IsGrid, Board.Reached, Places, Addresses;
    var b := Wormhole(g);
    forall i | 0 <= i < |b.tensix|
      ensures b.tensix[i].0 < 10 && b.tensix[i].1 < 12
      ensures b.Reached(Noc0, b.tensix[i]) && b.Reached(Noc1, b.tensix[i])
    {
      WormholeGrid.TensixPlace(harvest, g, i);
      WormholeReach(g, b.tensix[i]);
    }
  }

  lemma GrayskullCovers(harvest: Mask, g: GrayskullGrid.Grid)
    requires GrayskullGrid.IsGrid(harvest, g)
    ensures Grayskull(g).Valid() && Grayskull(g).CoversTensix()
  {
    hide GrayskullGrid.IsGrid, Board.Reached, Places, Addresses;
    var b := Grayskull(g);
    forall i | 0 <= i < |b.tensix|
      ensures b.tensix[i].0 < 13 && b.tensix[i].1 < 12
      ensures b.Reached(Noc0, b.tensix[i]) && b.Reached(Noc1, b.tensix[i])
    {
      GrayskullGrid.TensixPlace(harvest, g, i);
      GrayskullReach(g, Noc0, b.tensix[i]);
      GrayskullReach(g, Noc1, b.tensix[i]);
    }
  }

  /** For every harvesting mask, both networks and every segment list, a tensix tile of a Wormhole
      grid ends up with the same memory after a broadcast load as after a load of its own. */
  lemma WormholeBroadcast(
    harvest: Mask, g: WormholeGrid.Grid, c: Chip, noc: NocId, broadcast: seq<Step>, single: seq<Step>,
    image: seq<Segment>, tile: Tile)
    requires WormholeGrid.IsGrid(harvest, g) && tile in g.tensix
    requires LoaderContents.Undisturbed(c, broadcast, tile.addr.n0)
    requires LoaderContents.Undisturbed(c, single, tile.addr.n0)
    requires Ops(broadcast) == BroadcastLoads(noc, image) && Ops(single) == TileLoads(tile.addr.n0, image)
    ensures var b, t := Wormhole(g), tile.addr.n0;
            ExecAll(b, c, broadcast).mem[t] == ExecAll(b, c, single).mem[t] == LoadImage(c.mem[t], image)
  {
    hide ExecAll, LoadImage, LoaderContents.Undisturbed, WormholeGrid.IsGrid, Board.CoversTensix;
    WormholeCovers(harvest, g);
    TileListed(g.tensix, tile);
    LoaderContents.BroadcastAgrees(Wormhole(g), c, noc, broadcast, single, image, tile.addr.n0);
  }

  /** The same on Grayskull, for every mask that its grid can be computed from. */
  lemma GrayskullBroadcast(
    harvest: Mask, g: GrayskullGrid.Grid, c: Chip, noc: NocId, broadcast: seq<Step>, single: seq<Step>,
    image: seq<Segment>, tile: Tile)
    requires GrayskullGrid.IsGrid(harvest, g) && tile in g.tensix
    requires LoaderContents.Undisturbed(c, broadcast, tile.addr.n0)
    requires LoaderContents.Undisturbed(c, single, tile.addr.n0)
    requires Ops(broadcast) == BroadcastLoads(noc, image) && Ops(single) == TileLoads(tile.addr.n0, image)
    ensures var b, t := Grayskull(g), tile.addr.n0;
            ExecAll(b, c, broadcast).mem[t] == ExecAll(b, c, single).mem[t] == LoadImage(c.mem[t], image)
  {
    hide ExecAll, LoadImage, LoaderContents.Undisturbed, GrayskullGrid.IsGrid, Board.CoversTensix;
    GrayskullCovers(harvest, g);
    TileListed(g.tensix, tile);
    LoaderContents.BroadcastAgrees(Grayskull(g), c, noc, broadcast, single, image, tile.addr.n0);
  }

  lemma TileListed(tensix: seq<Tile>, tile: Tile)
    requires tile in tensix
    ensures tile.addr.n0 in Places(Addresses(tensix))
  {
    var i :| 0 <= i < |tensix| && tensix[i] == tile;
    assert Places(Addresses(tensix))[i] == tile.addr.n0;
  }
}
