/** Tiles, their soft-reset registers and memories, and what the host's writes do to them. */
module LoaderModel {
  import opened Bits
  import opened Coords
  import opened Wrappers

  /** The bytes of one tile, its soft-reset register among them. */
  type Memory = map<nat, bv8>

  datatype NocId = Noc0 | Noc1

  /** A rectangle of coordinates, corners included. */
  datatype Rect = Rect(lo: Coord, hi: Coord)
  {
    predicate Has(t: Coord) {
      lo.0 <= t.0 <= hi.0 && lo.1 <= t.1 <= hi.1
    }
  }

  /** What the host knows of a chip: its usable tensix tiles, its grid, and the rectangle that a
      broadcast names on each network. */
  datatype Board = Board(tensix: seq<Coord>, sizeX: nat, sizeY: nat, rect0: Rect, rect1: Rect)
  {
    predicate Valid() {
      forall i :: 0 <= i < |tensix| ==> tensix[i].0 < sizeX && tensix[i].1 < sizeY
    }

    /** The coordinate of a tile on a network: the second one counts from the far corner. */
    function On(noc: NocId, t: Coord): Coord
      requires t.0 < sizeX && t.1 < sizeY
    {
      if noc == Noc0 then t else Flip(sizeX, sizeY, t)
    }

    /** A broadcast reaches the tiles of the grid inside its rectangle. */
    predicate Reached(noc: NocId, t: Coord) {
      t.0 < sizeX && t.1 < sizeY && (if noc == Noc0 then rect0 else rect1).Has(On(noc, t))
    }

    predicate CoversTensix() {
      forall i :: 0 <= i < |tensix| ==> Reached(Noc0, tensix[i]) && Reached(Noc1, tensix[i])
    }
  }

  /** The soft-reset register and the values written to it, as little-endian bytes:
      bit 11 holds BRISC, bits 12 to 14 the TRISCs, bit 18 NCRISC; bit 31 staggers the start. */
  const RESET: nat := 0xFFB121B0

  const STOP: seq<bv8> := [0x00, 0x78, 0x04, 0x00]

  function Start(keepTriscs: bool, stagger: bool): (r: seq<bv8>)
    ensures |r| == 4
  {
    [0x00, if keepTriscs then 0x70 else 0x00, 0x04, if stagger then 0x80 else 0x00]
  }

  /** The written bytes are the sums of the cores' reset bits that the source computes. */
  lemma ResetValues(keepTriscs: bool, stagger: bool)
    ensures Value(STOP) == 0x800 + 0x1000 + 0x2000 + 0x4000 + 0x4_0000
    ensures Value(Start(keepTriscs, stagger))
            == (if keepTriscs then 0x1000 + 0x2000 + 0x4000 else 0) + 0x4_0000 + (if stagger then 0x8000_0000 else 0)
  {
    var s := Start(keepTriscs, stagger);
    assert s == [s[0], s[1], s[2], s[3]];
    ValueOfFour(0x00, 0x78, 0x04, 0x00);
    ValueOfFour(s[0], s[1], s[2], s[3]);
  }

  /** All five cores of the tile are held in reset. */
  predicate InReset(m: Memory) {
    && RESET + 1 in m && And(m[RESET + 1], 0x78) == 0x78
    && RESET + 2 in m && And(m[RESET + 2], 0x04) == 0x04
  }

  function WriteMem(m: Memory, addr: nat, data: seq<bv8>): (r: Memory)
    ensures forall i: nat :: addr <= i < addr + |data| ==> i in r && r[i] == data[i - addr]
    ensures forall i: nat :: i < addr || addr + |data| <= i ==> (i in r <==> i in m) && (i in m ==> r[i] == m[i])
    decreases |data|
  {
    if data == [] then m else WriteMem(m, addr + 1, data[1..])[addr := data[0]]
  }

  predicate HoldsWord(m: Memory, addr: nat) {
    addr in m && addr + 1 in m && addr + 2 in m && addr + 3 in m
  }

  /** A word of a memory; bytes that the memory does not hold read as zero. */
  function MemWord(m: Memory, addr: nat): nat {
    if HoldsWord(m, addr) then Value([m[addr], m[addr + 1], m[addr + 2], m[addr + 3]]) else 0
  }

  /** A word that was written reads back. */
  lemma WordWritten(m: Memory, addr: nat, d: seq<bv8>)
    requires |d| == 4
    ensures MemWord(WriteMem(m, addr, d), addr) == Value(d)
  {
    hide Value;
    var r := WriteMem(m, addr, d);
    assert r[addr] == d[0] && r[addr + 1] == d[1] && r[addr + 2] == d[2] && r[addr + 3] == d[3];
    assert d == [d[0], d[1], d[2], d[3]];
  }

  datatype Segment = Segment(addr: nat, data: seq<bv8>)

  /** A kernel image written to a memory, segment by segment, later ones over earlier ones. */
  function LoadImage(m: Memory, image: seq<Segment>): Memory
    decreases |image|
  {
    if image == [] then m else LoadImage(WriteMem(m, image[0].addr, image[0].data), image[1..])
  }

  predicate ClearOfReset(addr: nat, len: nat) {
    addr + len <= RESET || RESET + 4 <= addr
  }

  predicate AvoidsReset(image: seq<Segment>) {
    forall i :: 0 <= i < |image| ==> ClearOfReset(image[i].addr, |image[i].data|)
  }

  // ------------------------------------------------------- device operations

  /** The host's accesses. `Poke` stands for the small writes after a start: a core's number and
      the 2 of the start handshake; `Look` for the reads of the start polls. */
  datatype Op =
    | SetReset(tile: Coord, value: seq<bv8>)
    | SetResetAll(value: seq<bv8>)
    | Load(tile: Coord, segment: Segment)
    | LoadAll(noc: NocId, segment: Segment)
    | Poke(tile: Coord, addr: nat, data: seq<bv8>)
    | Look(tile: Coord)
    | DeassertRiscvReset
    | Power(busy: bool)

  datatype Chip = Chip(mem: map<Coord, Memory>, busy: bool)

  function WriteTile(c: Chip, t: Coord, addr: nat, data: seq<bv8>): Chip {
    if t in c.mem then c.(mem := c.mem[t := WriteMem(c.mem[t], addr, data)]) else c
  }

  function WriteReached(b: Board, c: Chip, noc: NocId, addr: nat, data: seq<bv8>): Chip {
    c.(mem := map t | t in c.mem :: if b.Reached(noc, t) then WriteMem(c.mem[t], addr, data) else c.mem[t])
  }

  /** Soft resets go over network 0; which network an image takes is the caller's choice. */
  function Exec(b: Board, c: Chip, op: Op): (c': Chip)
    ensures c'.mem.Keys == c.mem.Keys
  {
    match op
    case SetReset(t, value) => WriteTile(c, t, RESET, value)
    case SetResetAll(value) => WriteReached(b, c, Noc0, RESET, value)
    case Load(t, segment) => WriteTile(c, t, segment.addr, segment.data)
    case LoadAll(noc, segment) => WriteReached(b, c, noc, segment.addr, segment.data)
    case Poke(t, addr, data) => WriteTile(c, t, addr, data)
    case Look(_) => c
    case DeassertRiscvReset => c
    case Power(busy) => c.(busy := busy)
  }

  /** Between two host writes the tiles whose cores run may change their own memory at will;
      a tile in reset stays as it is. */
  function Drift(c: Chip, changes: map<Coord, Memory>): (c': Chip)
    ensures c'.mem.Keys == c.mem.Keys && c'.busy == c.busy
    ensures forall t :: t in c.mem && InReset(c.mem[t]) ==> c'.mem[t] == c.mem[t]
  {
    c.(mem := map t | t in c.mem :: if t in changes && !InReset(c.mem[t]) then changes[t] else c.mem[t])
  }

  /** A host write after whatever the cores did in the meantime. */
  datatype Step = Step(changes: map<Coord, Memory>, op: Op)

  function Ops(steps: seq<Step>): (ops: seq<Op>)
    ensures |ops| == |steps|
    ensures forall i :: 0 <= i < |steps| ==> ops[i] == steps[i].op
  {
    seq(|steps|, i requires 0 <= i < |steps| => steps[i].op)
  }

  function ExecAll(b: Board, c: Chip, steps: seq<Step>): (c': Chip)
    ensures c'.mem.Keys == c.mem.Keys
    decreases |steps|
  {
    if steps == [] then c else ExecAll(b, Exec(b, Drift(c, steps[0].changes), steps[0].op), steps[1..])
  }

  // ------------------------------------------------------- what load_kernels writes

  function EachTile(tiles: seq<Coord>, value: seq<bv8>): (ops: seq<Op>)
    ensures |ops| == |tiles|
    ensures forall i :: 0 <= i < |tiles| ==> ops[i] == SetReset(tiles[i], value)
  {
    seq(|tiles|, i requires 0 <= i < |tiles| => SetReset(tiles[i], value))
  }

  function StopOps(tiles: Option<seq<Coord>>): seq<Op> {
    if tiles.Some? then EachTile(tiles.value, STOP) else [Power(false), SetResetAll(STOP)]
  }

  function StartOps(tiles: Option<seq<Coord>>): seq<Op> {
    if tiles.Some? then EachTile(tiles.value, Start(true, true)) else [SetResetAll(Start(true, true))]
  }

  function TileLoads(t: Coord, image: seq<Segment>): (ops: seq<Op>)
    ensures |ops| == |image|
    ensures forall i :: 0 <= i < |image| ==> ops[i] == Load(t, image[i])
  {
    seq(|image|, i requires 0 <= i < |image| => Load(t, image[i]))
  }

  function ListLoads(tiles: seq<Coord>, image: seq<Segment>): seq<Op> {
    if tiles == [] then [] else TileLoads(tiles[0], image) + ListLoads(tiles[1..], image)
  }

  function BroadcastLoads(noc: NocId, image: seq<Segment>): (ops: seq<Op>)
    ensures |ops| == |image|
    ensures forall i :: 0 <= i < |image| ==> ops[i] == LoadAll(noc, image[i])
  {
    seq(|image|, i requires 0 <= i < |image| => LoadAll(noc, image[i]))
  }

  function LoadOps(tiles: Option<seq<Coord>>, image: seq<Segment>): seq<Op> {
    if tiles.Some? then ListLoads(tiles.value, image) else BroadcastLoads(Noc1, image)
  }

  /** The tiles a call is about: those of the list, or every usable tensix tile. */
  function Targets(b: Board, tiles: Option<seq<Coord>>): seq<Coord> {
    if tiles.Some? then tiles.value else b.tensix
  }

  /** Everything up to the first start. */
  function Preparation(tiles: Option<seq<Coord>>, image: seq<Segment>): seq<Op> {
    StopOps(tiles) + [DeassertRiscvReset, Power(true)] + LoadOps(tiles, image)
  }

  /** The waiting path: each tile is stopped as it completes, then all of them again, idle. */
  function WindDown(b: Board, tiles: Option<seq<Coord>>): seq<Op> {
    EachTile(Targets(b, tiles), STOP) + [Power(false)] + StopOps(tiles)
  }

  function LoadPlan(b: Board, tiles: Option<seq<Coord>>, image: seq<Segment>, pokes: seq<Op>, wait: bool): seq<Op> {
    Preparation(tiles, image) + StartOps(tiles) + pokes + (if wait then WindDown(b, tiles) else [])
  }

  /** The single-tile path: it shares everything up to the start, and with `wait` ends when the
      tile is stopped on completion. */
  function QuickPlan(t: Coord, image: seq<Segment>, pokes: seq<Op>, wait: bool): seq<Op> {
    Preparation(Some([t]), image) + StartOps(Some([t])) + pokes + (if wait then [SetReset(t, STOP)] else [])
  }
}
