/** The tiles of a Wormhole chip that a harvesting mask leaves usable. */
module WormholeGrid {
  import opened Coords
  import opened NocGrid

  const SIZE := Size(10, 12)
  const PHYS_Y_TO_NOC_0_Y: seq<nat> := [0, 11, 1, 10, 2, 9, 3, 8, 4, 7, 5, 6]
  const TENSIX_COLS: seq<nat> := [1, 2, 3, 4, 6, 7, 8, 9]

  const DRAM_LOCATIONS: seq<seq<Coord>> := [
    [(0, 0), (0, 1), (0, 11)],
    [(0, 5), (0, 6), (0, 7)],
    [(5, 0), (5, 1), (5, 11)],
    [(5, 2), (5, 9), (5, 10)],
    [(5, 3), (5, 4), (5, 8)],
    [(5, 5), (5, 6), (5, 7)]]
  const ETH_LOCATIONS: seq<Coord> := [
    (9, 0), (1, 0), (8, 0), (2, 0), (7, 0), (3, 0), (6, 0), (4, 0),
    (9, 6), (1, 6), (8, 6), (2, 6), (7, 6), (3, 6), (6, 6), (4, 6)]
  const ARC_LOCATION: Coord := (0, 10)
  const PCI_LOCATION: Coord := (0, 3)

  predicate IsRow(y: nat) {
    1 <= y <= 11 && y != 6
  }

  predicate IsColumn(x: nat) {
    1 <= x <= 9 && x != 5
  }

  /** The bit of the mask that harvests a row, in closed form: rows alternate between the far
      and the near edge of the grid. */
  function HarvestBit(y: nat): (k: nat)
    requires IsRow(y)
    ensures k < 10
  {
    if y <= 5 then 2 * y - 1 else 22 - 2 * y
  }

  /** The table read by the source and the closed form are inverse to each other. */
  lemma HarvestTable(k: nat)
    requires k < 10
    ensures IsRow(PHYS_Y_TO_NOC_0_Y[k + 1]) && HarvestBit(PHYS_Y_TO_NOC_0_Y[k + 1]) == k
    ensures forall y :: IsRow(y) && HarvestBit(y) == k ==> y == PHYS_Y_TO_NOC_0_Y[k + 1]
  {
    forall y | IsRow(y) && HarvestBit(y) == k
      ensures y == PHYS_Y_TO_NOC_0_Y[k + 1]
    {
      if k % 2 == 1 {
        assert y <= 5 && PHYS_Y_TO_NOC_0_Y[2 * y] == y;
      } else {
        assert y >= 7 && PHYS_Y_TO_NOC_0_Y[23 - 2 * y] == y;
      }
    }
  }

  /** The usable tensix tiles among those whose row the first `k` bits decide. */
  function TensixUpTo(harvest: Mask, k: nat): (s: set<Coord>)
    ensures forall t :: t in s <==> IsColumn(t.0) && IsRow(t.1) && HarvestBit(t.1) < k && !harvest[HarvestBit(t.1)]
  {
    set x, y | 0 <= x < 10 && 0 <= y < 12 && IsColumn(x) && IsRow(y) && HarvestBit(y) < k && !harvest[HarvestBit(y)]
      :: (x, y)
  }

  function Tensix(harvest: Mask): set<Coord> {
    TensixUpTo(harvest, 10)
  }

  /** The order of the list: by mask bit, then by column. */
  predicate Before(s: Coord, t: Coord) {
    IsRow(s.1) && IsRow(t.1) && (HarvestBit(s.1) < HarvestBit(t.1) || (s.1 == t.1 && s.0 < t.0))
  }

  predicate OrderedUpTo(cores: seq<NocAddress>, k: nat) {
    && (forall i :: 0 <= i < |cores| ==> IsRow(cores[i].n0.1) && HarvestBit(cores[i].n0.1) < k)
    && forall i, j :: 0 <= i < j < |cores| ==> Before(cores[i].n0, cores[j].n0)
  }

  lemma RowInOrder(cores: seq<NocAddress>, k: nat)
    requires k < 10 && OrderedUpTo(cores, k)
    ensures OrderedUpTo(cores, k + 1)
    ensures OrderedUpTo(cores + RowOf(SIZE, TENSIX_COLS, PHYS_Y_TO_NOC_0_Y[k + 1]), k + 1)
  {
    hide HarvestBit;
    HarvestTable(k);
  }

  method GoodCores(harvest: Mask) returns (cores: seq<NocAddress>)
    ensures Lists(SIZE, cores, Tensix(harvest)) && OrderedUpTo(cores, 10)
    ensures |cores| == 8 * (10 - Popcount(harvest[..10]))
  {
    hide Lists, Popcount, TensixUpTo, RowOf, HarvestBit, OrderedUpTo;
    cores := [];
    EmptyGrid(harvest);
    for k := 0 to 10
      invariant Lists(SIZE, cores, TensixUpTo(harvest, k)) && OrderedUpTo(cores, k)
      invariant |cores| == 8 * (k - Popcount(harvest[..k]))
    {
      PopcountNext(harvest, k);
      HarvestTable(k);
      RowInOrder(cores, k);
      if !harvest[k] {
        var y := PHYS_Y_TO_NOC_0_Y[k + 1];
        ghost var before, row := cores, RowOf(SIZE, TENSIX_COLS, y);
        for i := 0 to |TENSIX_COLS|
          invariant cores == before + row[..i]
        {
          cores := cores + [SIZE.Address((TENSIX_COLS[i], y))];
        }
        assert row[..8] == row;
        NextRow(harvest, before, k);
      } else {
        SkippedRow(harvest, k);
      }
    }
  }

  lemma EmptyGrid(harvest: Mask)
    ensures Lists(SIZE, [], TensixUpTo(harvest, 0)) && Popcount(harvest[..0]) == 0 && OrderedUpTo([], 0)
  {
  }

  lemma SkippedRow(harvest: Mask, k: nat)
    requires k < 10 && harvest[k]
    ensures TensixUpTo(harvest, k + 1) == TensixUpTo(harvest, k)
  {
  }

  lemma NextRow(harvest: Mask, cores: seq<NocAddress>, k: nat)
    requires k < 10 && !harvest[k] && Lists(SIZE, cores, TensixUpTo(harvest, k))
    ensures Lists(SIZE, cores + RowOf(SIZE, TENSIX_COLS, PHYS_Y_TO_NOC_0_Y[k + 1]), TensixUpTo(harvest, k + 1))
  {
    hide Lists;
    HarvestTable(k);
    var y := PHYS_Y_TO_NOC_0_Y[k + 1];
    assert forall x :: x in TENSIX_COLS <==> IsColumn(x);
    AppendRow(SIZE, cores, TensixUpTo(harvest, k), TENSIX_COLS, y, TensixUpTo(harvest, k + 1));
  }

  // ------------------------------------------------------- the whole grid

  datatype Grid = Grid(tensix: seq<Tile>, dram: seq<seq<Tile>>, pci: Tile, arc: Tile, eth: seq<Tile>)

  /** Where every tile that is not tensix stands: never in a tensix row and column at once. */
  lemma FixedPlaces()
    ensures forall i, j :: 0 <= i < |DRAM_LOCATIONS| && 0 <= j < |DRAM_LOCATIONS[i]| ==>
              SIZE.Has(DRAM_LOCATIONS[i][j]) && !IsColumn(DRAM_LOCATIONS[i][j].0)
    ensures forall i :: 0 <= i < |ETH_LOCATIONS| ==> SIZE.Has(ETH_LOCATIONS[i]) && !IsRow(ETH_LOCATIONS[i].1)
    ensures SIZE.Has(ARC_LOCATION) && SIZE.Has(PCI_LOCATION)
    ensures !IsColumn(ARC_LOCATION.0) && !IsColumn(PCI_LOCATION.0)
  {
  }

  predicate Outside(t: Tile) {
    SIZE.Has(t.addr.n0) && t.addr == SIZE.Address(t.addr.n0) && (!IsColumn(t.addr.n0.0) || !IsRow(t.addr.n0.1))
  }

  /** Six banks of three tiles. */
  function Dram(): (r: seq<seq<Tile>>)
    ensures forall i, j :: 0 <= i < |r| && 0 <= j < |r[i]| ==> Outside(r[i][j])
  {
    FixedPlaces();
    seq(|DRAM_LOCATIONS|, i requires 0 <= i < |DRAM_LOCATIONS| => TilesAt(SIZE, DRAM_LOCATIONS[i], 32, 16))
  }

  function Eth(): (r: seq<Tile>)
    ensures forall i :: 0 <= i < |r| ==> Outside(r[i])
  {
    FixedPlaces();
    TilesAt(SIZE, ETH_LOCATIONS, 16, 16)
  }

  function Pci(): (t: Tile)
    ensures Outside(t)
  {
    FixedPlaces();
    Tile(SIZE.Address(PCI_LOCATION), 32, 16)
  }

  function Arc(): (t: Tile)
    ensures Outside(t)
  {
    FixedPlaces();
    Tile(SIZE.Address(ARC_LOCATION), 16, 16)
  }

  /** What `GetGrid` promises of a mask: each usable tensix tile once, in order, and
      the fixed tiles. */
  ghost predicate IsGrid(harvest: Mask, g: Grid) {
    && Lists(SIZE, Addresses(g.tensix), Tensix(harvest)) && OrderedUpTo(Addresses(g.tensix), 10)
    && |g.tensix| == 8 * (10 - Popcount(harvest[..10]))
    && (forall i :: 0 <= i < |g.tensix| ==> g.tensix[i].alignRead == g.tensix[i].alignWrite == 16)
    && g.dram == Dram() && g.pci == Pci() && g.arc == Arc() && g.eth == Eth()
  }

  method GetGrid(harvest: Mask) returns (g: Grid)
    ensures IsGrid(harvest, g)
  {
    hide Lists, Popcount, TensixUpTo, OrderedUpTo, Dram, Pci, Arc, Eth, Places, Addresses;
    var cores := GoodCores(harvest);
    g := Grid(TensixTiles(cores), Dram(), Pci(), Arc(), Eth());
  }

  predicate IsFixed(g: Grid, t: Tile) {
    t in g.eth || t == g.arc || t == g.pci || exists i :: 0 <= i < |g.dram| && t in g.dram[i]
  }

  lemma FixedOutside(harvest: Mask, g: Grid, t: Tile)
    requires IsGrid(harvest, g) && IsFixed(g, t)
    ensures Outside(t)
  {
    hide Lists, Popcount, OrderedUpTo, Tensix, Addresses, Places, Dram, Pci, Arc, Eth, Outside;
  }

  /** The order in which the physical columns stand on the first network. */
  const PHYS_X_TO_NOC_0_X: seq<nat> := [0, 9, 1, 8, 2, 7, 3, 6, 4, 5]

  lemma EthPlaces()
    ensures |ETH_LOCATIONS| == 16
    ensures forall i :: 0 <= i < 16 ==> ETH_LOCATIONS[i] == (PHYS_X_TO_NOC_0_X[i % 8 + 1], if i < 8 then 0 else 6)
  {
  }

  /** Where each role stands, and how it is aligned: two columns hold the DRAM banks, three tiles
      each, the ARC and the PCI tile; the Ethernet tiles fill rows 0 and 6 of the tensix columns, in
      the order of the physical columns. */
  lemma FixedTiles(harvest: Mask, g: Grid)
    requires IsGrid(harvest, g)
    ensures g.arc.addr.n0 == (0, 10) && g.arc.alignRead == g.arc.alignWrite == 16
    ensures g.pci.addr.n0 == (0, 3) && g.pci.alignRead == 32 && g.pci.alignWrite == 16
    ensures |g.eth| == 16
    ensures forall i :: 0 <= i < 16 ==>
              g.eth[i].addr.n0 == (PHYS_X_TO_NOC_0_X[i % 8 + 1], if i < 8 then 0 else 6)
              && g.eth[i].alignRead == g.eth[i].alignWrite == 16
    ensures |g.dram| == 6
    ensures forall i :: 0 <= i < 6 ==> |g.dram[i]| == 3
    ensures forall i, j :: 0 <= i < 6 && 0 <= j < 3 ==>
              g.dram[i][j].addr.n0 == DRAM_LOCATIONS[i][j] && g.dram[i][j].addr.n0.0 == (if i < 2 then 0 else 5)
              && g.dram[i][j].alignRead == 32 && g.dram[i][j].alignWrite == 16
  {
    hide Lists, Popcount, OrderedUpTo, Tensix, Addresses, Places;
    EthPlaces();
  }

  /** Every tile of a grid that is not tensix, bank after bank, then ARC, PCI and Ethernet. */
  function Fixed(g: Grid): (r: seq<Tile>)
    requires |g.dram| == 6 && |g.eth| == 16
  {
    g.dram[0] + g.dram[1] + g.dram[2] + g.dram[3] + g.dram[4] + g.dram[5] + [g.arc, g.pci] + g.eth
  }

  /** The places of the DRAM tiles, bank after bank, then those of ARC and PCI. */
  const COLUMN_LOCATIONS: seq<Coord> := [
    (0, 0), (0, 1), (0, 11),
    (0, 5), (0, 6), (0, 7),
    (5, 0), (5, 1), (5, 11),
    (5, 2), (5, 9), (5, 10),
    (5, 3), (5, 4), (5, 8),
    (5, 5), (5, 6), (5, 7),
    (0, 10), (0, 3)]

  /** Where in that list each place of columns 0 and 5 is. */
  const COLUMN_INDEX: seq<nat> := [
    0, 1, 0, 19, 0, 3, 4, 5, 0, 0, 18, 2,
    6, 7, 9, 12, 13, 15, 16, 17, 14, 10, 11, 8]

  lemma ColumnIndex()
    ensures |COLUMN_LOCATIONS| == 20
    ensures forall k :: 0 <= k < 20 ==>
              var t := COLUMN_LOCATIONS[k]; t.1 < 12 && COLUMN_INDEX[if t.0 == 0 then t.1 else 12 + t.1] == k
  {
  }

  lemma LocationsApart(i: nat, j: nat)
    requires i < j < 20
    ensures |COLUMN_LOCATIONS| == 20 && COLUMN_LOCATIONS[i] != COLUMN_LOCATIONS[j]
  {
    ColumnIndex();
  }

  /** The Ethernet tiles of each row are told apart by their columns. */
  lemma EthApart(i: nat, j: nat)
    requires i < j < 16
    ensures |ETH_LOCATIONS| == 16 && ETH_LOCATIONS[i] != ETH_LOCATIONS[j]
  {
    EthPlaces();
  }

  lemma ColumnLocations()
    ensures forall k :: 0 <= k < 20 ==> !IsColumn(COLUMN_LOCATIONS[k].0)
    ensures forall k :: 0 <= k < 18 ==> COLUMN_LOCATIONS[k] == DRAM_LOCATIONS[k / 3][k % 3]
    ensures COLUMN_LOCATIONS[18] == ARC_LOCATION && COLUMN_LOCATIONS[19] == PCI_LOCATION
  {
  }

  lemma FixedBank(g: Grid, k: nat)
    requires |g.dram| == 6 && |g.eth| == 16 && k < 18
    requires forall i :: 0 <= i < 6 ==> |g.dram[i]| == 3
    ensures |Fixed(g)| == 36 && Fixed(g)[k] == g.dram[k / 3][k % 3]
  {
  }

  /** The place of the k-th of them. */
  lemma FixedAt(harvest: Mask, g: Grid, k: nat)
    requires IsGrid(harvest, g) && k < 36
    ensures |g.dram| == 6 && |g.eth| == 16 && |Fixed(g)| == 36 && Outside(Fixed(g)[k])
    ensures Fixed(g)[k].addr.n0 == if k < 20 then COLUMN_LOCATIONS[k] else ETH_LOCATIONS[k - 20]
  {
    hide Lists, Popcount, OrderedUpTo, Tensix, Addresses, Places, Outside, Fixed;
    FixedTiles(harvest, g);
    ColumnLocations();
    if k < 18 {
      FixedBank(g, k);
    } else {
      FixedRest(g, k);
    }
    FixedOutside(harvest, g, Fixed(g)[k]);
  }

  lemma FixedRest(g: Grid, k: nat)
    requires |g.dram| == 6 && |g.eth| == 16 && 18 <= k < 36
    requires forall i :: 0 <= i < 6 ==> |g.dram[i]| == 3
    ensures |Fixed(g)| == 36 && Fixed(g)[k] == if k == 18 then g.arc else if k == 19 then g.pci else g.eth[k - 20]
  {
  }

  /** All 36 of them are apart, on both networks. */
  lemma FixedApart(harvest: Mask, g: Grid, i: nat, j: nat)
    requires IsGrid(harvest, g) && i < j < 36
    ensures |g.dram| == 6 && |g.eth| == 16 && |Fixed(g)| == 36
    ensures Fixed(g)[i].addr.n0 != Fixed(g)[j].addr.n0 && Fixed(g)[i].addr.n1 != Fixed(g)[j].addr.n1
  {
    hide IsGrid, Fixed;
    FixedAt(harvest, g, i);
    FixedAt(harvest, g, j);
    ColumnLocations();
    EthPlaces();
    if j < 20 {
      LocationsApart(i, j);
    } else if i >= 20 {
      EthApart(i - 20, j - 20);
    }
    ApartOnBoth(SIZE, Fixed(g)[i].addr.n0, Fixed(g)[j].addr.n0);
  }

  lemma TensixInside(harvest: Mask, t: Coord)
    requires t in Tensix(harvest)
    ensures IsColumn(t.0) && IsRow(t.1)
  {
  }

  lemma GridLists(harvest: Mask, g: Grid)
    requires IsGrid(harvest, g)
    ensures Lists(SIZE, Addresses(g.tensix), Tensix(harvest))
  {
    hide Lists, Popcount, OrderedUpTo, Tensix, Addresses, Places, Dram, Pci, Arc, Eth;
  }

  /** Every listed tile stands in a tensix row and column. */
  lemma TensixPlace(harvest: Mask, g: Grid, i: nat)
    requires IsGrid(harvest, g) && i < |g.tensix|
    ensures var t := Places(Addresses(g.tensix))[i]; IsColumn(t.0) && IsRow(t.1)
  {
    hide Lists, Popcount, OrderedUpTo, Tensix, Addresses, Places, IsGrid, IsColumn, IsRow;
    GridLists(harvest, g);
    ListedInside(SIZE, g.tensix, Tensix(harvest), i);
    TensixInside(harvest, Places(Addresses(g.tensix))[i]);
  }

  /** For every mask, no tensix tile shares an address with a DRAM, Ethernet, ARC or PCI tile on
      either network. */
  lemma RolesApart(harvest: Mask, g: Grid, t: Tile, other: Tile)
    requires IsGrid(harvest, g) && t in g.tensix && IsFixed(g, other)
    ensures t.addr.n0 != other.addr.n0 && t.addr.n1 != other.addr.n1
  {
    hide Lists, Popcount, OrderedUpTo, Tensix, Addresses, Places, IsFixed, IsColumn, IsRow, IsGrid;
    GridLists(harvest, g);
    FixedOutside(harvest, g, other);
    if other.addr.n0 in Tensix(harvest) {
      TensixInside(harvest, other.addr.n0);
    }
    ListedApart(SIZE, g.tensix, Tensix(harvest), t, other.addr.n0);
  }

  /** Setting more bits of a mask only takes tiles away, and takes some away exactly when it sets
      a new one of the ten row bits. */
  lemma MoreHarvested(h: Mask, k: Mask)
    requires Within(h, k)
    ensures Tensix(k) <= Tensix(h)
    ensures Tensix(k) == Tensix(h) <==> h[..10] == k[..10]
  {
    if h[..10] != k[..10] {
      var i :| 0 <= i < 10 && h[..10][i] != k[..10][i];
      HarvestTable(i);
      assert (1, PHYS_Y_TO_NOC_0_Y[i + 1]) in Tensix(h);
      assert (1, PHYS_Y_TO_NOC_0_Y[i + 1]) !in Tensix(k);
    } else {
      forall t
        ensures t in Tensix(h) <==> t in Tensix(k)
      {
        if IsRow(t.1) {
          assert h[HarvestBit(t.1)] == h[..10][HarvestBit(t.1)] == k[..10][HarvestBit(t.1)];
        }
      }
    }
  }
}
