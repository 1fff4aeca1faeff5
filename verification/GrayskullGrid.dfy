/** The tiles of a Grayskull chip that a harvesting mask leaves usable, and the masks it cannot
    read. */
module GrayskullGrid {
  import opened Coords
  import opened NocGrid
  import opened Wrappers

  const SIZE := Size(13, 12)
  const PHYS_Y_TO_NOC_0_Y: seq<nat> := [0, 11, 1, 10, 2, 9, 3, 8, 4, 7, 5, 6]

  const DRAM_LOCATIONS: seq<Coord> := [(1, 6), (4, 6), (7, 6), (10, 6), (1, 0), (4, 0), (7, 0), (10, 0)]
  const ARC_LOCATION: Coord := (0, 2)
  const PCI_LOCATION: Coord := (0, 4)

  const TENSIX_ROWS: set<nat> := {1, 2, 3, 4, 5, 7, 8, 9, 10, 11}

  predicate IsRow(y: nat) {
    1 <= y <= 11 && y != 6
  }

  predicate IsColumn(x: nat) {
    1 <= x <= 12
  }

  /** The bit of the mask that harvests a row, in closed form: rows alternate outwards from the
      middle of the grid. */
  function HarvestBit(y: nat): (k: nat)
    requires IsRow(y)
    ensures k < 10
  {
    if y <= 5 then 10 - 2 * y else 2 * y - 13
  }

  /** The masks that name no row past the table: bits 11 to 30 are clear. Bit 31 is lost in the
      shift. */
  predicate Readable(harvest: Mask) {
    forall i :: 11 <= i <= 30 ==> !harvest[i]
  }

  /** `harvest << 1`, as a u32. */
  function Shifted(harvest: Mask): Mask {
    [false] + harvest[..31]
  }

  /** The table read by the source and the closed form are inverse to each other. */
  lemma HarvestTable(k: nat)
    requires k < 10
    ensures IsRow(PHYS_Y_TO_NOC_0_Y[10 - k]) && HarvestBit(PHYS_Y_TO_NOC_0_Y[10 - k]) == k
    ensures forall y :: IsRow(y) && HarvestBit(y) == k ==> y == PHYS_Y_TO_NOC_0_Y[10 - k]
  {
    forall y | IsRow(y) && HarvestBit(y) == k
      ensures y == PHYS_Y_TO_NOC_0_Y[10 - k]
    {
      if k % 2 == 0 {
        assert y <= 5 && PHYS_Y_TO_NOC_0_Y[2 * y] == y;
      } else {
        assert y >= 7 && PHYS_Y_TO_NOC_0_Y[23 - 2 * y] == y;
      }
    }
  }

  function RowsUpTo(harvest: Mask, k: nat): (s: set<nat>)
    ensures forall y :: y in s <==> IsRow(y) && (HarvestBit(y) < k ==> !harvest[HarvestBit(y)])
  {
    set y | 0 <= y < 12 && IsRow(y) && (HarvestBit(y) < k ==> !harvest[HarvestBit(y)])
  }

  function GoodRows(harvest: Mask): set<nat> {
    RowsUpTo(harvest, 10)
  }

  /** The usable tensix tiles in the given rows. */
  function InRows(rows: set<nat>): (s: set<Coord>)
    ensures forall t :: t in s <==> IsColumn(t.0) && t.1 in rows
  {
    set x, y | 0 <= x < 13 && y in rows && IsColumn(x) :: (x, y)
  }

  function Tensix(harvest: Mask): set<Coord> {
    InRows(GoodRows(harvest))
  }

  // ------------------------------------------------------- rows

  /** Which rows the first `k` mask bits leave, and how many. */
  lemma NoRowsYet(harvest: Mask)
    ensures RowsUpTo(harvest, 0) == TENSIX_ROWS && |TENSIX_ROWS| == 10 && Popcount(harvest[..0]) == 0
  {
  }

  lemma RowDecided(harvest: Mask, k: nat)
    requires k < 10
    ensures RowsUpTo(harvest, k + 1)
            == if harvest[k] then RowsUpTo(harvest, k) - {PHYS_Y_TO_NOC_0_Y[10 - k]} else RowsUpTo(harvest, k)
    ensures PHYS_Y_TO_NOC_0_Y[10 - k] in RowsUpTo(harvest, k)
  {
    HarvestTable(k);
  }

  /** Ten rows, less one for every one of the ten row bits that is set. */
  lemma {:induction false} RowCount(harvest: Mask, k: nat)
    requires k <= 10
    ensures |RowsUpTo(harvest, k)| == 10 - Popcount(harvest[..k])
  {
    hide RowsUpTo, Popcount;
    if k == 0 {
      NoRowsYet(harvest);
    } else {
      RowCount(harvest, k - 1);
      RowDecided(harvest, k - 1);
      PopcountNext(harvest, k - 1);
    }
  }

  /** The scan's shift register after `n` rounds; the first round sees the shifted-in zero. */
  predicate Register(harvest: Mask, n: nat, badRows: Mask) {
    forall i :: 0 <= i < 32 ==> badRows[i] == (1 <= i + n < 32 && harvest[i + n - 1])
  }

  /** How many row bits the first `n` rounds decide. */
  function Decided(n: nat): (k: nat)
    ensures k <= 10
  {
    if n == 0 then 0 else if n <= 11 then n - 1 else 10
  }

  lemma RegisterStart(harvest: Mask)
    ensures Register(harvest, 0, Shifted(harvest))
  {
  }

  lemma RegisterNext(harvest: Mask, n: nat, badRows: Mask)
    requires n < 32 && Register(harvest, n, badRows)
    ensures badRows[0] == (n > 0 && harvest[n - 1])
    ensures Register(harvest, n + 1, badRows[1..] + [false])
  {
  }

  /** The disabled rows after `n` rounds leave the tensix rows that the bits seen so far leave. */
  predicate RowsLeft(harvest: Mask, n: nat, disabled: set<nat>) {
    TENSIX_ROWS - disabled == RowsUpTo(harvest, Decided(n))
  }

  /** One round takes the row of its bit away, if the bit is set. Row 0, which bit 10 names, is
      not a tensix row. */
  lemma RoundDecides(harvest: Mask, n: nat, disabled: set<nat>)
    requires n < 12 && RowsLeft(harvest, n, disabled)
    ensures RowsLeft(harvest, n + 1,
                     if n > 0 && harvest[n - 1] then disabled + {PHYS_Y_TO_NOC_0_Y[11 - n]} else disabled)
  {
    hide RowsUpTo;
    if 1 <= n <= 10 {
      RowDecided(harvest, n - 1);
    } else {
      assert Decided(n) == Decided(n + 1);
    }
  }

  lemma RoundRests(harvest: Mask, n: nat, disabled: set<nat>)
    requires 12 <= n && RowsLeft(harvest, n, disabled)
    ensures RowsLeft(harvest, n + 1, disabled)
  {
    hide RowsUpTo;
  }

  lemma ScanEnds(harvest: Mask, disabled: set<nat>)
    ensures RowsLeft(harvest, 0, {})
    ensures RowsLeft(harvest, 32, disabled) ==> TENSIX_ROWS - disabled == GoodRows(harvest)
  {
    hide RowsUpTo;
    NoRowsYet(harvest);
  }

  /** The scan over the mask: the tensix rows that are left, or None where the source indexes
      its row table out of range. */
  method ScanRows(harvest: Mask) returns (rows: Option<set<nat>>)
    ensures rows.None? <==> !Readable(harvest)
    ensures rows.Some? ==> rows.value == GoodRows(harvest)
  {
    hide RowsUpTo, Register, Shifted, RowsLeft, GoodRows;
    var badRows: Mask := Shifted(harvest);
    var disabled: set<nat> := {};
    ScanEnds(harvest, disabled);
    RegisterStart(harvest);
    for n := 0 to 32
      invariant Register(harvest, n, badRows)
      invariant RowsLeft(harvest, n, disabled)
      invariant forall i :: 11 <= i < n - 1 ==> !harvest[i]
    {
      RegisterNext(harvest, n, badRows);
      if n < 12 {
        RoundDecides(harvest, n, disabled);
      } else {
        RoundRests(harvest, n, disabled);
      }
      if badRows[0] {
        if n >= 12 {
          assert harvest[n - 1];
          return None;
        }
        disabled := disabled + {PHYS_Y_TO_NOC_0_Y[11 - n]};
      }
      badRows := badRows[1..] + [false];
    }
    ScanEnds(harvest, disabled);
    rows := Some(TENSIX_ROWS - disabled);
  }

  // ------------------------------------------------------- cores

  const COLUMNS: seq<nat> := [1, 2, 3, 4, 5, 6, 7, 8, 9, 10, 11, 12]

  lemma NextRow(cores: seq<NocAddress>, done: set<nat>, y: nat)
    requires Lists(SIZE, cores, InRows(done)) && IsRow(y) && y !in done
    ensures Lists(SIZE, cores + RowOf(SIZE, COLUMNS, y), InRows(done + {y}))
  {
    hide Lists;
    assert forall x :: x in COLUMNS <==> IsColumn(x);
    AppendRow(SIZE, cores, InRows(done), COLUMNS, y, InRows(done + {y}));
  }

  lemma NextColumn(y: nat, x: nat)
    requires IsRow(y) && 1 <= x <= 12
    ensures var row := RowOf(SIZE, COLUMNS, y);
            SIZE.Has((x, y)) && row[..x] == row[..x - 1] + [SIZE.Address((x, y))]
  {
    assert COLUMNS[x - 1] == x;
  }

  /** Taking one row from those left to those done. */
  lemma MoveRow(left: set<nat>, done: set<nat>, rows: set<nat>, y: nat)
    requires left + done == rows && left !! done && y in left
    ensures (left - {y}) + (done + {y}) == rows && (left - {y}) !! (done + {y})
    ensures |left - {y}| < |left| && |done + {y}| == |done| + 1
  {
  }

  /** The list goes row by row, every row from column 1 to column 12. */
  predicate RowByRow(cores: seq<NocAddress>) {
    forall i :: 0 <= i < |cores| ==> cores[i].n0 == (i % 12 + 1, cores[i - i % 12].n0.1)
  }

  lemma RowAdded(cores: seq<NocAddress>, y: nat)
    requires RowByRow(cores) && |cores| % 12 == 0 && IsRow(y)
    ensures RowByRow(cores + RowOf(SIZE, COLUMNS, y))
  {
    var all := cores + RowOf(SIZE, COLUMNS, y);
    forall i | |cores| <= i < |all|
      ensures all[i].n0 == (i % 12 + 1, all[i - i % 12].n0.1)
    {
      assert i % 12 == i - |cores|;
      assert COLUMNS[i - |cores|] == i - |cores| + 1;
    }
  }

  /** One core per column of every given row, the rows in any order: the source takes them out
      of a hash set. */
  method GoodCores(rows: set<nat>) returns (cores: seq<NocAddress>)
    requires forall y :: y in rows ==> IsRow(y)
    ensures Lists(SIZE, cores, InRows(rows)) && |cores| == 12 * |rows| && RowByRow(cores)
  {
    hide Lists, InRows, RowOf, HarvestBit, Size.Address, RowByRow;
    cores := [];
    var left, done := rows, {};
    NoCores();
    while left != {}
      invariant left + done == rows && left !! done
      invariant Lists(SIZE, cores, InRows(done)) && |cores| == 12 * |done| && RowByRow(cores)
      decreases |left|
    {
      var y :| y in left;
      ghost var before, row := cores, RowOf(SIZE, COLUMNS, y);
      for x := 1 to 13
        invariant cores == before + row[..x - 1]
      {
        NextColumn(y, x);
        cores := cores + [SIZE.Address((x, y))];
      }
      assert row[..12] == row;
      NextRow(before, done, y);
      RowAdded(before, y);
      MoveRow(left, done, rows, y);
      left, done := left - {y}, done + {y};
    }
    assert done == rows;
  }

  lemma NoCores()
    ensures Lists(SIZE, [], InRows({})) && RowByRow([])
  {
  }

  // ------------------------------------------------------- the whole grid

  datatype Grid = Grid(tensix: seq<Tile>, dram: seq<Tile>, pci: Tile, arc: Tile)

  /** Where every tile that is not tensix stands: never in a tensix row and column at once. */
  lemma FixedPlaces()
    ensures forall i :: 0 <= i < |DRAM_LOCATIONS| ==> SIZE.Has(DRAM_LOCATIONS[i]) && !IsRow(DRAM_LOCATIONS[i].1)
    ensures SIZE.Has(ARC_LOCATION) && SIZE.Has(PCI_LOCATION)
    ensures !IsColumn(ARC_LOCATION.0) && !IsColumn(PCI_LOCATION.0)
  {
  }

  predicate Outside(t: Tile) {
    SIZE.Has(t.addr.n0) && t.addr == SIZE.Address(t.addr.n0) && (!IsColumn(t.addr.n0.0) || !IsRow(t.addr.n0.1))
  }

  function Dram(): (r: seq<Tile>)
    ensures forall i :: 0 <= i < |r| ==> Outside(r[i])
  {
    FixedPlaces();
    TilesAt(SIZE, DRAM_LOCATIONS, 32, 16)
  }

  function Pci(): (t: Tile)
    ensures Outside(t)
  {
    FixedPlaces();
    Tile(SIZE.Address(PCI_LOCATION), 32, 16)
  }

  function Arc(): (t: Tile)
    ensures Outside(t)
  {
    FixedPlaces();
    Tile(SIZE.Address(ARC_LOCATION), 16, 16)
  }

  function WithCores(cores: seq<NocAddress>): Grid {
    Grid(TensixTiles(cores), Dram(), Pci(), Arc())
  }

  /** What `GetGrid` promises of a mask: each usable tensix tile once, row by row, and
      the fixed tiles. */
  ghost predicate IsGrid(harvest: Mask, g: Grid) {
    && Lists(SIZE, Addresses(g.tensix), Tensix(harvest)) && RowByRow(Addresses(g.tensix))
    && |g.tensix| == 12 * (10 - Popcount(harvest[..10]))
    && (forall i :: 0 <= i < |g.tensix| ==> g.tensix[i].alignRead == g.tensix[i].alignWrite == 16)
    && g.dram == Dram() && g.pci == Pci() && g.arc == Arc()
  }

  /** None where the source panics: exactly when one of the bits 11 to 30 of the mask is set. */
  method GetGrid(harvest: Mask) returns (g: Option<Grid>)
    ensures g.None? <==> !Readable(harvest)
    ensures g.Some? ==> IsGrid(harvest, g.value)
  {
    hide Lists, Popcount, RowsUpTo, InRows, Readable, IsGrid, RowByRow;
    var rows := ScanRows(harvest);
    if rows.None? {
      return None;
    }
    RowsAreRows(harvest);
    var cores := GoodCores(rows.value);
    RowCount(harvest, 10);
    GridOfCores(harvest, cores);
    g := Some(WithCores(cores));
  }

  lemma GridOfCores(harvest: Mask, cores: seq<NocAddress>)
    requires Lists(SIZE, cores, Tensix(harvest)) && RowByRow(cores)
    requires |cores| == 12 * (10 - Popcount(harvest[..10]))
    ensures IsGrid(harvest, WithCores(cores))
  {
    hide Lists, Popcount, RowByRow, Tensix, Addresses, Places, Dram, Pci, Arc;
  }

  lemma RowsAreRows(harvest: Mask)
    ensures forall y :: y in GoodRows(harvest) ==> IsRow(y)
  {
  }

  predicate IsFixed(g: Grid, t: Tile) {
    t in g.dram || t == g.arc || t == g.pci
  }

  lemma FixedOutside(harvest: Mask, g: Grid, t: Tile)
    requires IsGrid(harvest, g) && IsFixed(g, t)
    ensures Outside(t)
  {
    hide Lists, Popcount, RowByRow, Tensix, Addresses, Places, Dram, Pci, Arc, Outside;
  }

  /** Where each role stands, and how it is aligned: the DRAM tiles in rows 6 and 0, every third
      column, the ARC and the PCI tile in column 0. */
  lemma FixedTiles(harvest: Mask, g: Grid)
    requires IsGrid(harvest, g)
    ensures g.arc.addr.n0 == (0, 2) && g.arc.alignRead == g.arc.alignWrite == 16
    ensures g.pci.addr.n0 == (0, 4) && g.pci.alignRead == 32 && g.pci.alignWrite == 16
    ensures |g.dram| == 8
    ensures forall i :: 0 <= i < 8 ==>
              g.dram[i].addr.n0 == (1 + 3 * (i % 4), if i < 4 then 6 else 0)
              && g.dram[i].alignRead == 32 && g.dram[i].alignWrite == 16
  {
    hide Lists, Popcount, RowByRow, Tensix, Addresses, Places;
    DramPlaces();
  }

  lemma DramPlaces()
    ensures |DRAM_LOCATIONS| == 8
    ensures forall i :: 0 <= i < 8 ==> DRAM_LOCATIONS[i] == (1 + 3 * (i % 4), if i < 4 then 6 else 0)
  {
  }

  /** Every tile of a grid that is not tensix. */
  function Fixed(g: Grid): (r: seq<Tile>) {
    g.dram + [g.arc, g.pci]
  }

  /** All ten of them are apart, on both networks. */
  lemma FixedApart(harvest: Mask, g: Grid, i: nat, j: nat)
    requires IsGrid(harvest, g) && i < j < 10
    ensures |Fixed(g)| == 10
    ensures Fixed(g)[i].addr.n0 != Fixed(g)[j].addr.n0 && Fixed(g)[i].addr.n1 != Fixed(g)[j].addr.n1
  {
    hide IsGrid;
    FixedTiles(harvest, g);
    FixedOutside(harvest, g, Fixed(g)[i]);
    FixedOutside(harvest, g, Fixed(g)[j]);
    ApartOnBoth(SIZE, Fixed(g)[i].addr.n0, Fixed(g)[j].addr.n0);
  }

  lemma TensixInside(harvest: Mask, t: Coord)
    requires t in Tensix(harvest)
    ensures IsColumn(t.0) && IsRow(t.1)
  {
  }

  lemma GridLists(harvest: Mask, g: Grid)
    requires IsGrid(harvest, g)
    ensures Lists(SIZE, Addresses(g.tensix), Tensix(harvest))
  {
    hide Lists, Popcount, RowByRow, Tensix, Addresses, Places, Dram, Pci, Arc;
  }

  /** Every listed tile stands in a tensix row and column. */
  lemma TensixPlace(harvest: Mask, g: Grid, i: nat)
    requires IsGrid(harvest, g) && i < |g.tensix|
    ensures var t := Places(Addresses(g.tensix))[i]; IsColumn(t.0) && IsRow(t.1)
  {
    hide Lists, Popcount, RowByRow, Tensix, Addresses, Places, IsGrid, IsColumn, IsRow;
    GridLists(harvest, g);
    ListedInside(SIZE, g.tensix, Tensix(harvest), i);
    TensixInside(harvest, Places(Addresses(g.tensix))[i]);
  }

  /** For every mask, no tensix tile shares an address with a DRAM, ARC or PCI tile on either
      network. */
  lemma RolesApart(harvest: Mask, g: Grid, t: Tile, other: Tile)
    requires IsGrid(harvest, g) && t in g.tensix && IsFixed(g, other)
    ensures t.addr.n0 != other.addr.n0 && t.addr.n1 != other.addr.n1
  {
    hide Lists, Popcount, RowByRow, Tensix, Addresses, Places, IsFixed, IsColumn, IsRow, IsGrid;
    GridLists(harvest, g);
    FixedOutside(harvest, g, other);
    if other.addr.n0 in Tensix(harvest) {
      TensixInside(harvest, other.addr.n0);
    }
    ListedApart(SIZE, g.tensix, Tensix(harvest), t, other.addr.n0);
  }

  /** Setting more bits of a readable mask only takes tiles away, and takes some away exactly
      when it sets a new one of the ten row bits. */
  lemma MoreHarvested(h: Mask, k: Mask)
    requires Within(h, k)
    ensures Readable(k) ==> Readable(h)
    ensures Tensix(k) <= Tensix(h)
    ensures Tensix(k) == Tensix(h) <==> h[..10] == k[..10]
  {
    if h[..10] != k[..10] {
      var i :| 0 <= i < 10 && h[..10][i] != k[..10][i];
      HarvestTable(i);
      assert (1, PHYS_Y_TO_NOC_0_Y[10 - i]) in Tensix(h);
      assert (1, PHYS_Y_TO_NOC_0_Y[10 - i]) !in Tensix(k);
    } else {
      forall t
        ensures t in Tensix(h) <==> t in Tensix(k)
      {
        if IsRow(t.1) {
          assert h[HarvestBit(t.1)] == h[..10][HarvestBit(t.1)] == k[..10][HarvestBit(t.1)];
        }
      }
    }
  }
}
