/** What a load leaves in memory: the image laid over what was there, the same for a broadcast,
    for a list of tiles and for a list with repeats. */
module LoaderContents {
  import opened Coords
  import opened LoaderModel
  import opened Wrappers
  import opened LoaderSafety

  // ------------------------------------------------------- images as overlays

  lemma WriteIsOverlay(m: Memory, addr: nat, data: seq<bv8>)
    ensures WriteMem(m, addr, data) == m + WriteMem(map[], addr, data)
  {
    var r, d := WriteMem(m, addr, data), WriteMem(map[], addr, data);
    forall i: nat
      ensures (i in r <==> i in m + d) && (i in r ==> r[i] == (m + d)[i])
    {
      if addr <= i < addr + |data| {
        assert i in r && i in d;
      } else {
        assert i !in d;
      }
    }
  }

  /** The bytes an image defines, later segments over earlier ones. */
  function Footprint(image: seq<Segment>): Memory {
    LoadImage(map[], image)
  }

  lemma OverlayAssociates(a: Memory, b: Memory, c: Memory)
    ensures (a + b) + c == a + (b + c)
  {
  }

  lemma FootprintStep(image: seq<Segment>)
    requires image != []
    ensures Footprint(image) == LoadImage(WriteMem(map[], image[0].addr, image[0].data), image[1..])
  {
  }

  lemma NoFootprint(m: Memory)
    ensures LoadImage(m, []) == m + Footprint([])
  {
  }

  /** Loading an image, with whatever overlaps between its segments, lays its footprint over
      the memory. */
  lemma {:induction false} LoadIsOverlay(m: Memory, image: seq<Segment>)
    ensures LoadImage(m, image) == m + Footprint(image)
    decreases |image|
  {
    hide WriteMem, Footprint;
    if image == [] {
      NoFootprint(m);
    } else {
      var s := image[0];
      var w := WriteMem(map[], s.addr, s.data);
      WriteIsOverlay(m, s.addr, s.data);
      LoadIsOverlay(m + w, image[1..]);
      LoadIsOverlay(w, image[1..]);
      FootprintStep(image);
      OverlayAssociates(m, w, Footprint(image[1..]));
    }
  }

  predicate Covers(s: Segment, a: nat) {
    s.addr <= a < s.addr + |s.data|
  }

  predicate Uncovered(image: seq<Segment>, a: nat) {
    forall j :: 0 <= j < |image| ==> !Covers(image[j], a)
  }

  /** Where no segment lies, a load leaves a memory as it was. */
  lemma {:induction false} LoadLeaves(m: Memory, image: seq<Segment>, a: nat)
    requires Uncovered(image, a)
    ensures var r := LoadImage(m, image); (a in r <==> a in m) && (a in m ==> r[a] == m[a])
    decreases |image|
  {
    if image != [] {
      assert !Covers(image[0], a);
      LoadLeaves(WriteMem(m, image[0].addr, image[0].data), image[1..], a);
    }
  }

  /** Elsewhere it leaves the byte of the last segment there. */
  lemma {:induction false} LoadWrites(m: Memory, image: seq<Segment>, a: nat, k: nat)
    requires k < |image| && Covers(image[k], a) && Uncovered(image[k + 1..], a)
    ensures var r := LoadImage(m, image);
            && a in r && image[k].addr <= a && a - image[k].addr < |image[k].data|
            && r[a] == image[k].data[a - image[k].addr]
    decreases |image|
  {
    hide Uncovered, Covers;
    var written := WriteMem(m, image[0].addr, image[0].data);
    if k == 0 {
      LoadLeaves(written, image[1..], a);
      Written(m, image[0], a);
    } else {
      assert image[1..][k - 1] == image[k] && image[1..][k..] == image[k + 1..];
      LoadWrites(written, image[1..], a, k - 1);
    }
  }

  lemma Written(m: Memory, s: Segment, a: nat)
    requires Covers(s, a)
    ensures var r := WriteMem(m, s.addr, s.data);
            a in r && s.addr <= a && a - s.addr < |s.data| && r[a] == s.data[a - s.addr]
  {
  }

  /** So loading an image twice is loading it once. */
  lemma LoadTwice(m: Memory, image: seq<Segment>)
    ensures LoadImage(LoadImage(m, image), image) == LoadImage(m, image)
  {
    hide LoadImage, Footprint;
    LoadIsOverlay(m, image);
    LoadIsOverlay(LoadImage(m, image), image);
    assert (m + Footprint(image)) + Footprint(image) == m + Footprint(image);
  }

  // ------------------------------------------------------- the effect on one tile

  /** Tile `t` is left alone between the host's writes: its cores are in reset and stay there,
      or nothing is reported to change. */
  predicate Undisturbed(c: Chip, steps: seq<Step>, t: Coord) {
    t in c.mem
    && ((InReset(c.mem[t]) && AllHarmless(Ops(steps))) || forall i :: 0 <= i < |steps| ==> t !in steps[i].changes)
  }

  lemma UndisturbedStep(b: Board, c: Chip, steps: seq<Step>, t: Coord)
    requires steps != [] && Undisturbed(c, steps, t)
    ensures Drift(c, steps[0].changes).mem[t] == c.mem[t]
    ensures Undisturbed(Exec(b, Drift(c, steps[0].changes), steps[0].op), steps[1..], t)
  {
    hide InReset, Exec, Harmless;
    var d := Drift(c, steps[0].changes);
    OpsSlice(steps, 1, |steps|);
    assert steps[1..|steps|] == steps[1..];
    if InReset(c.mem[t]) && AllHarmless(Ops(steps)) {
      assert Harmless(Ops(steps)[0]);
      HarmlessKeeps(b, d, steps[0].op, t);
    }
  }

  /** Whether a segment is meant for tile `t`: addressed to it, or broadcast and reaching it. */
  predicate MeantFor(b: Board, u: Option<Coord>, noc: NocId, t: Coord) {
    if u.Some? then u.value == t else b.Reached(noc, t)
  }

  lemma SegmentEffect(b: Board, c: Chip, op: Op, u: Option<Coord>, noc: NocId, s: Segment, t: Coord)
    requires t in c.mem && op == if u.Some? then Load(u.value, s) else LoadAll(noc, s)
    ensures Exec(b, c, op).mem[t] == if MeantFor(b, u, noc, t) then WriteMem(c.mem[t], s.addr, s.data) else c.mem[t]
  {
    hide WriteMem, Board.Reached;
  }

  /** A run of image segments addressed to tile `u`, or broadcast when `u` is None, changes tile
      `t` by exactly the image if it is meant for it, and not at all otherwise. */
  lemma {:induction false} SegmentsEffect(
    b: Board, c: Chip, steps: seq<Step>, u: Option<Coord>, noc: NocId, image: seq<Segment>, t: Coord)
    requires Undisturbed(c, steps, t)
    requires Ops(steps) == if u.Some? then TileLoads(u.value, image) else BroadcastLoads(noc, image)
    ensures ExecAll(b, c, steps).mem[t]
            == if MeantFor(b, u, noc, t) then LoadImage(c.mem[t], image) else c.mem[t]
    decreases |steps|
  {
    hide Undisturbed, Board.Reached, InReset, WriteMem, Exec, MeantFor;
    UndisturbedIn(c, steps, t);
    if steps != [] {
      UndisturbedStep(b, c, steps, t);
      var d := Drift(c, steps[0].changes);
      assert Ops(steps)[0] == steps[0].op;
      OpsSlice(steps, 1, |steps|);
      assert steps[1..|steps|] == steps[1..];
      SegmentEffect(b, d, steps[0].op, u, noc, image[0], t);
      SegmentsEffect(b, Exec(b, d, steps[0].op), steps[1..], u, noc, image[1..], t);
    }
  }

  lemma UndisturbedIn(c: Chip, steps: seq<Step>, t: Coord)
    requires Undisturbed(c, steps, t)
    ensures t in c.mem
  {
  }

  lemma {:induction false} UndisturbedSplit(b: Board, c: Chip, steps: seq<Step>, t: Coord, n: nat)
    requires n <= |steps| && Undisturbed(c, steps, t)
    ensures Undisturbed(c, steps[..n], t) && Undisturbed(ExecAll(b, c, steps[..n]), steps[n..], t)
    decreases n
  {
    hide InReset, Exec, Harmless;
    OpsSlice(steps, 0, n);
    OpsSlice(steps, n, |steps|);
    assert steps[0..n] == steps[..n] && steps[n..|steps|] == steps[n..];
    if InReset(c.mem[t]) && AllHarmless(Ops(steps)) {
      assert AllHarmless(Ops(steps)[..n]) && AllHarmless(Ops(steps)[n..]);
      HarmlessRunKeeps(b, c, steps[..n], t);
    }
  }

  lemma Halves(ops: seq<Op>, a: seq<Op>, b: seq<Op>)
    requires ops == a + b
    ensures ops[..|a|] == a && ops[|a|..] == b
  {
  }

  lemma ListLoadsStep(tiles: seq<Coord>, image: seq<Segment>)
    requires tiles != []
    ensures ListLoads(tiles, image) == TileLoads(tiles[0], image) + ListLoads(tiles[1..], image)
  {
    hide TileLoads;
  }

  lemma OpsHalves(steps: seq<Step>, n: nat)
    requires n <= |steps|
    ensures Ops(steps[..n]) == Ops(steps)[..n] && Ops(steps[n..]) == Ops(steps)[n..]
  {
    hide Ops;
    OpsSlice(steps, 0, n);
    OpsSlice(steps, n, |steps|);
    assert steps[0..n] == steps[..n] && steps[n..|steps|] == steps[n..];
  }

  /** The loads of a list begin with those of its first tile. */
  lemma FirstTile(steps: seq<Step>, tiles: seq<Coord>, image: seq<Segment>)
    requires tiles != [] && Ops(steps) == ListLoads(tiles, image)
    ensures |image| <= |steps|
    ensures Ops(steps[..|image|]) == TileLoads(tiles[0], image)
    ensures Ops(steps[|image|..]) == ListLoads(tiles[1..], image)
  {
    hide Ops, TileLoads, ListLoads;
    ListLoadsStep(tiles, image);
    Halves(Ops(steps), TileLoads(tiles[0], image), ListLoads(tiles[1..], image));
    OpsHalves(steps, |image|);
  }

  /** Loading a list of tiles, repeats included, gives every tile of the list the image and
      leaves every other tile as it was. */
  lemma {:induction false} ListEffect(
    b: Board, c: Chip, steps: seq<Step>, tiles: seq<Coord>, image: seq<Segment>, t: Coord)
    requires Undisturbed(c, steps, t) && Ops(steps) == ListLoads(tiles, image)
    ensures ExecAll(b, c, steps).mem[t] == if t in tiles then LoadImage(c.mem[t], image) else c.mem[t]
    decreases |tiles|
  {
    hide Undisturbed, LoadImage, Board.Reached, InReset, ExecAll, TileLoads, Ops;
    UndisturbedIn(c, steps, t);
    if tiles == [] {
      NothingLoaded(b, c, steps, image);
    } else {
      hide ListLoads;
      var n := |image|;
      FirstTile(steps, tiles, image);
      assert steps[..n] + steps[n..] == steps;
      ExecAppend(b, c, steps[..n], steps[n..]);
      UndisturbedSplit(b, c, steps, t, n);
      SegmentsEffect(b, c, steps[..n], Some(tiles[0]), Noc1, image, t);
      ListEffect(b, ExecAll(b, c, steps[..n]), steps[n..], tiles[1..], image, t);
      LoadTwice(c.mem[t], image);
      InList(tiles, t);
    }
  }

  lemma NothingLoaded(b: Board, c: Chip, steps: seq<Step>, image: seq<Segment>)
    requires Ops(steps) == ListLoads([], image)
    ensures ExecAll(b, c, steps) == c
  {
  }

  lemma InList(tiles: seq<Coord>, t: Coord)
    requires tiles != []
    ensures t in tiles <==> t == tiles[0] || t in tiles[1..]
  {
  }

  // ------------------------------------------------------- main results

  /** Broadcasting an image on either network and loading it tile by tile leave every usable
      tensix tile with the same memory, for every segment list, on any board whose broadcasts
      reach its tiles. */
  lemma BroadcastAgrees(
    b: Board, c: Chip, noc: NocId, broadcast: seq<Step>, single: seq<Step>, image: seq<Segment>, t: Coord)
    requires b.CoversTensix() && t in b.tensix
    requires Undisturbed(c, broadcast, t) && Undisturbed(c, single, t)
    requires Ops(broadcast) == BroadcastLoads(noc, image) && Ops(single) == TileLoads(t, image)
    ensures ExecAll(b, c, broadcast).mem[t] == ExecAll(b, c, single).mem[t] == LoadImage(c.mem[t], image)
  {
    hide Undisturbed, LoadImage, Board.Reached, ExecAll;
    var i :| 0 <= i < |b.tensix| && b.tensix[i] == t;
    assert b.Reached(Noc0, b.tensix[i]) && b.Reached(Noc1, b.tensix[i]);
    SegmentsEffect(b, c, broadcast, None, noc, image, t);
    SegmentsEffect(b, c, single, Some(t), noc, image, t);
  }

  /** The load phase gives every target tile the image, by list or by broadcast. */
  lemma LoadsReachTargets(
    b: Board, c: Chip, tiles: Option<seq<Coord>>, image: seq<Segment>, loads: seq<Step>, t: Coord)
    requires (tiles.None? ==> b.CoversTensix()) && t in Targets(b, tiles)
    requires Undisturbed(c, loads, t) && Ops(loads) == LoadOps(tiles, image)
    ensures t in c.mem && ExecAll(b, c, loads).mem[t] == LoadImage(c.mem[t], image)
  {
    hide Undisturbed, LoadImage, ExecAll, Ops, ListLoads, Board.Reached;
    UndisturbedIn(c, loads, t);
    if tiles.Some? {
      ListEffect(b, c, loads, tiles.value, image, t);
    } else {
      var i :| 0 <= i < |b.tensix| && b.tensix[i] == t;
      assert b.Reached(Noc1, b.tensix[i]);
      SegmentsEffect(b, c, loads, None, Noc1, image, t);
    }
  }

  lemma LoadsHarmless(tiles: Option<seq<Coord>>, image: seq<Segment>)
    requires AvoidsReset(image)
    ensures AllHarmless(LoadOps(tiles, image))
  {
    hide Harmless, LoadOps;
    forall i | 0 <= i < |LoadOps(tiles, image)|
      ensures Harmless(LoadOps(tiles, image)[i])
    {
      LoadOpsAre(tiles, image, i);
      LoadIsHarmless(image, LoadOps(tiles, image)[i]);
    }
  }

  /** When the first tile is started, every target tile holds the image over what its memory
      held when it had been stopped. */
  lemma StartedWithImage(
    b: Board, c: Chip, tiles: Option<seq<Coord>>, image: seq<Segment>, steps: seq<Step>, t: Coord)
    requires Call(b, c, tiles, image) && t in Targets(b, tiles)
    requires Ops(steps) == Preparation(tiles, image)
    ensures var stopped := ExecAll(b, c, steps[..|StopOps(tiles)| + 2]);
            ExecAll(b, c, steps).mem[t] == LoadImage(stopped.mem[t], image)
  {
    hide InReset, LoadImage, ExecAll, StopOps, LoadOps, Harmless, Targets, AvoidsReset, Board.CoversTensix;
    var n := |StopOps(tiles)| + 2;
    var stopped, loads := ExecAll(b, c, steps[..n]), steps[n..];
    assert steps[..n] + loads == steps && steps[n..|steps|] == loads;
    ExecAppend(b, c, steps[..n], loads);
    TargetsStopped(b, c, tiles, image, t);
    PreparedInReset(b, c, tiles, image, steps, n, t);
    OpsSlice(steps, n, |steps|);
    assert Ops(loads) == LoadOps(tiles, image);
    LoadsHarmless(tiles, image);
    LoadsReachTargets(b, stopped, tiles, image, loads, t);
  }
}
