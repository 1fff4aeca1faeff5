/** What the order of writes in a kernel load guarantees, for every tile list, every image and
    everything the running cores may do to their own memories in between. */
module LoaderSafety {
  import opened Coords
  import opened Bits
  import opened LoaderModel
  import opened Wrappers

  // ------------------------------------------------------- running steps one after another

  lemma {:induction false} ExecAppend(b: Board, c: Chip, s: seq<Step>, t: seq<Step>)
    ensures ExecAll(b, c, s + t) == ExecAll(b, ExecAll(b, c, s), t)
    decreases |s|
  {
    hide Exec;
    if s == [] {
      assert s + t == t;
    } else {
      assert (s + t)[1..] == s[1..] + t;
      ExecAppend(b, Exec(b, Drift(c, s[0].changes), s[0].op), s[1..], t);
    }
  }

  lemma OpsSlice(steps: seq<Step>, lo: nat, hi: nat)
    requires lo <= hi <= |steps|
    ensures Ops(steps[lo..hi]) == Ops(steps)[lo..hi]
  {
  }

  // ------------------------------------------------------- reset bits

  /** Writes that never take a tile out of reset. */
  predicate Harmless(op: Op) {
    match op
    case SetReset(_, value) => value == STOP
    case SetResetAll(value) => value == STOP
    case Load(_, segment) => ClearOfReset(segment.addr, |segment.data|)
    case LoadAll(_, segment) => ClearOfReset(segment.addr, |segment.data|)
    case Poke(_, addr, data) => ClearOfReset(addr, |data|)
    case _ => true
  }

  predicate AllHarmless(ops: seq<Op>) {
    forall i :: 0 <= i < |ops| ==> Harmless(ops[i])
  }

  /** The write puts tile `t` in reset. */
  predicate Stops(b: Board, op: Op, t: Coord) {
    op == SetReset(t, STOP) || (op == SetResetAll(STOP) && b.Reached(Noc0, t))
  }

  lemma StopBits()
    ensures And(0x78, 0x78) == 0x78 && And(0x04, 0x04) == 0x04 && And(0x70, 0x78) != 0x78 && And(0x00, 0x78) != 0x78
  {
  }

  lemma StopResets(m: Memory)
    ensures InReset(WriteMem(m, RESET, STOP))
  {
    hide And;
    StopBits();
    var r := WriteMem(m, RESET, STOP);
    assert r[RESET + 1] == STOP[1] && r[RESET + 2] == STOP[2];
  }

  /** A start, whatever its options, takes BRISC, and with it the tile, out of reset. */
  lemma StartReleases(m: Memory, keepTriscs: bool, stagger: bool)
    ensures !InReset(WriteMem(m, RESET, Start(keepTriscs, stagger)))
  {
    hide And;
    StopBits();
    var r := WriteMem(m, RESET, Start(keepTriscs, stagger));
    assert r[RESET + 1] == Start(keepTriscs, stagger)[1];
  }

  /** A write clear of the register neither resets nor releases a tile. */
  lemma ClearKeepsReset(m: Memory, addr: nat, data: seq<bv8>)
    requires ClearOfReset(addr, |data|)
    ensures InReset(WriteMem(m, addr, data)) == InReset(m)
  {
    hide And;
  }

  lemma HarmlessKeeps(b: Board, c: Chip, op: Op, t: Coord)
    requires t in c.mem && InReset(c.mem[t]) && Harmless(op)
    ensures InReset(Exec(b, c, op).mem[t])
  {
    hide InReset, WriteMem, ClearOfReset;
    StopResets(c.mem[t]);
    match op
    case Load(_, segment) => ClearKeepsReset(c.mem[t], segment.addr, segment.data);
    case LoadAll(_, segment) => ClearKeepsReset(c.mem[t], segment.addr, segment.data);
    case Poke(_, addr, data) => ClearKeepsReset(c.mem[t], addr, data);
    case _ =>
  }

  lemma StopWorks(b: Board, c: Chip, op: Op, t: Coord)
    requires t in c.mem && Stops(b, op, t)
    ensures InReset(Exec(b, c, op).mem[t])
  {
    hide InReset, WriteMem;
    StopResets(c.mem[t]);
  }

  lemma {:induction false} HarmlessRunKeeps(b: Board, c: Chip, steps: seq<Step>, t: Coord)
    requires t in c.mem && InReset(c.mem[t]) && AllHarmless(Ops(steps))
    ensures InReset(ExecAll(b, c, steps).mem[t])
    decreases |steps|
  {
    hide Exec, Harmless, InReset;
    if steps != [] {
      assert Harmless(Ops(steps)[0]);
      var d := Drift(c, steps[0].changes);
      HarmlessKeeps(b, d, steps[0].op, t);
      OpsSlice(steps, 1, |steps|);
      assert steps[1..|steps|] == steps[1..];
      HarmlessRunKeeps(b, Exec(b, d, steps[0].op), steps[1..], t);
    }
  }

  /** Once stopped, a tile stays in reset through every harmless write. */
  lemma {:induction false} StoppedStays(b: Board, c: Chip, steps: seq<Step>, t: Coord, k: nat)
    requires t in c.mem && AllHarmless(Ops(steps)) && k < |steps| && Stops(b, steps[k].op, t)
    ensures InReset(ExecAll(b, c, steps).mem[t])
    decreases |steps|
  {
    hide Exec, Harmless, InReset, Stops;
    var d := Drift(c, steps[0].changes);
    var e := Exec(b, d, steps[0].op);
    OpsSlice(steps, 1, |steps|);
    assert steps[1..|steps|] == steps[1..];
    if k == 0 {
      StopWorks(b, d, steps[0].op, t);
      HarmlessRunKeeps(b, e, steps[1..], t);
    } else {
      StoppedStays(b, e, steps[1..], t, k - 1);
    }
  }

  // ------------------------------------------------------- the shape of the plan

  predicate IsLoad(op: Op) {
    op.Load? || op.LoadAll?
  }

  predicate IsStart(op: Op) {
    (op.SetReset? || op.SetResetAll?) && op.value != STOP
  }

  /** The accesses of the start phase: small writes and reads. */
  predicate OnlyPokes(pokes: seq<Op>) {
    forall i :: 0 <= i < |pokes| ==> pokes[i].Poke? || pokes[i].Look?
  }

  lemma {:induction false} ListLoadsAre(tiles: seq<Coord>, image: seq<Segment>, i: nat)
    requires i < |ListLoads(tiles, image)|
    ensures var op := ListLoads(tiles, image)[i]; op.Load? && op.tile in tiles && op.segment in image
    decreases |tiles|
  {
    if i >= |image| {
      ListLoadsAre(tiles[1..], image, i - |image|);
    }
  }

  lemma LoadOpsAre(tiles: Option<seq<Coord>>, image: seq<Segment>, i: nat)
    requires i < |LoadOps(tiles, image)|
    ensures var op := LoadOps(tiles, image)[i];
            && IsLoad(op) && op.segment in image
            && (tiles.Some? ==> op.Load? && op.tile in tiles.value)
            && (tiles.None? ==> op.LoadAll?)
  {
    if tiles.Some? {
      ListLoadsAre(tiles.value, image, i);
    }
  }

  lemma LoadIsHarmless(image: seq<Segment>, op: Op)
    requires AvoidsReset(image) && IsLoad(op) && op.segment in image
    ensures Harmless(op)
  {
  }

  lemma PreparationHarmless(tiles: Option<seq<Coord>>, image: seq<Segment>)
    requires AvoidsReset(image)
    ensures AllHarmless(Preparation(tiles, image))
  {
    hide ClearOfReset;
    var plan, n := Preparation(tiles, image), |StopOps(tiles)| + 2;
    StopOpsAreStops(tiles);
    hide StopOps, LoadOps;
    forall i | 0 <= i < |plan|
      ensures Harmless(plan[i])
    {
      if i >= n {
        LoadOpsAre(tiles, image, i - n);
        assert plan[i] == LoadOps(tiles, image)[i - n];
        LoadIsHarmless(image, plan[i]);
      } else if i < n - 2 {
        assert plan[i] == StopOps(tiles)[i];
      }
    }
  }

  lemma PlanAt(b: Board, tiles: Option<seq<Coord>>, image: seq<Segment>, pokes: seq<Op>, wait: bool, i: nat)
    requires i < |LoadPlan(b, tiles, image, pokes, wait)|
    ensures i < |Preparation(tiles, image)| ==>
      LoadPlan(b, tiles, image, pokes, wait)[i] == Preparation(tiles, image)[i]
    ensures i < |StopOps(tiles)| ==> LoadPlan(b, tiles, image, pokes, wait)[i] == StopOps(tiles)[i]
  {
  }

  /** No load comes before the stops, and no start comes before the last load. */
  lemma NoStartBeforeLoads(
    b: Board, tiles: Option<seq<Coord>>, image: seq<Segment>, pokes: seq<Op>, wait: bool, i: nat, j: nat)
    requires OnlyPokes(pokes)
    requires var plan := LoadPlan(b, tiles, image, pokes, wait);
             i < |plan| && j < |plan| && IsStart(plan[i]) && IsLoad(plan[j])
    ensures |StopOps(tiles)| <= j < i
  {
    hide ListLoads, WindDown, StopOps, StartOps;
    var plan, prep := LoadPlan(b, tiles, image, pokes, wait), Preparation(tiles, image);
    PreparationHasNoStarts(tiles, image);
    PlanAt(b, tiles, image, pokes, wait, i);
    StopOpsAreStops(tiles);
    PlanAt(b, tiles, image, pokes, wait, j);
    if j >= |prep| {
      LaterOpsAreNotLoads(b, tiles, pokes, wait, j - |prep|);
    }
  }

  lemma StopOpsAreStops(tiles: Option<seq<Coord>>)
    ensures forall i :: 0 <= i < |StopOps(tiles)| ==>
      var op := StopOps(tiles)[i]; !IsStart(op) && !IsLoad(op) && Harmless(op)
  {
  }

  lemma PreparationHasNoStarts(tiles: Option<seq<Coord>>, image: seq<Segment>)
    ensures forall i :: 0 <= i < |Preparation(tiles, image)| ==> !IsStart(Preparation(tiles, image)[i])
  {
    hide ListLoads, StopOps;
    StopOpsAreStops(tiles);
    var plan, n := Preparation(tiles, image), |StopOps(tiles)| + 2;
    forall i | 0 <= i < |plan|
      ensures !IsStart(plan[i])
    {
      if i >= n {
        LoadOpsAre(tiles, image, i - n);
      } else if i < n - 2 {
        assert plan[i] == StopOps(tiles)[i];
      }
    }
  }

  lemma LaterOpsAreNotLoads(b: Board, tiles: Option<seq<Coord>>, pokes: seq<Op>, wait: bool, j: nat)
    requires OnlyPokes(pokes)
    requires j < |StartOps(tiles) + pokes + (if wait then WindDown(b, tiles) else [])|
    ensures !IsLoad((StartOps(tiles) + pokes + (if wait then WindDown(b, tiles) else []))[j])
  {
    var starts := StartOps(tiles);
    if j >= |starts| + |pokes| {
      WindDownIsHarmless(b, tiles, j - |starts| - |pokes|);
    }
  }

  lemma WindDownIsHarmless(b: Board, tiles: Option<seq<Coord>>, i: nat)
    requires i < |WindDown(b, tiles)|
    ensures Harmless(WindDown(b, tiles)[i]) && !IsLoad(WindDown(b, tiles)[i])
    ensures WindDown(b, tiles)[i] != Power(true)
  {
    StopOpsAreStops(tiles);
  }

  // ------------------------------------------------------- main results

  predicate Call(b: Board, c: Chip, tiles: Option<seq<Coord>>, image: seq<Segment>) {
    && AvoidsReset(image)
    && (tiles.None? ==> b.CoversTensix())
    && forall i :: 0 <= i < |Targets(b, tiles)| ==> Targets(b, tiles)[i] in c.mem
  }

  /** The tiles that the stop phase stops: those of the list, or all that the stop broadcast
      reaches, harvested ones among them. */
  predicate StopReaches(b: Board, tiles: Option<seq<Coord>>, t: Coord) {
    if tiles.Some? then t in tiles.value else b.Reached(Noc0, t)
  }

  /** Every target of a call is one of them. */
  lemma TargetsStopped(b: Board, c: Chip, tiles: Option<seq<Coord>>, image: seq<Segment>, t: Coord)
    requires Call(b, c, tiles, image) && t in Targets(b, tiles)
    ensures t in c.mem && StopReaches(b, tiles, t) && AvoidsReset(image)
  {
    hide Board.Reached, AvoidsReset;
    var i :| 0 <= i < |Targets(b, tiles)| && Targets(b, tiles)[i] == t;
    if tiles.None? {
      assert b.Reached(Noc0, b.tensix[i]);
    }
  }

  /** Some write of the stop phase stops tile `t`. */
  lemma StopPhaseStops(b: Board, tiles: Option<seq<Coord>>, t: Coord)
    requires StopReaches(b, tiles, t)
    ensures exists k :: 0 <= k < |StopOps(tiles)| && Stops(b, StopOps(tiles)[k], t)
  {
    if tiles.Some? {
      var i :| 0 <= i < |tiles.value| && tiles.value[i] == t;
      assert Stops(b, StopOps(tiles)[i], t);
    } else {
      assert Stops(b, StopOps(tiles)[1], t);
    }
  }

  /** From the end of the stop phase until the first start every stopped tile is in reset. */
  lemma PreparedInReset(
    b: Board, c: Chip, tiles: Option<seq<Coord>>, image: seq<Segment>, steps: seq<Step>, n: nat, t: Coord)
    requires AvoidsReset(image) && t in c.mem && StopReaches(b, tiles, t)
    requires |StopOps(tiles)| <= n <= |Preparation(tiles, image)| && n <= |steps|
    requires Ops(steps)[..n] == Preparation(tiles, image)[..n]
    ensures InReset(ExecAll(b, c, steps[..n]).mem[t])
  {
    hide InReset, ExecAll, Harmless, Stops, StopOps, LoadOps, StopReaches;
    PreparationHarmless(tiles, image);
    StopPhaseStops(b, tiles, t);
    var k :| 0 <= k < |StopOps(tiles)| && Stops(b, StopOps(tiles)[k], t);
    OpsSlice(steps, 0, n);
    assert steps[0..n] == steps[..n];
    assert Ops(steps[..n]) == Preparation(tiles, image)[..n];
    assert steps[..n][k].op == StopOps(tiles)[k];
    StoppedStays(b, c, steps[..n], t, k);
  }

  /** Where a load stands in the plan: after the stops, and before the end of the preparation. */
  lemma LoadIsPrepared(
    b: Board, tiles: Option<seq<Coord>>, image: seq<Segment>, pokes: seq<Op>, wait: bool, k: nat)
    requires OnlyPokes(pokes) && k < |LoadPlan(b, tiles, image, pokes, wait)|
    requires IsLoad(LoadPlan(b, tiles, image, pokes, wait)[k])
    ensures |StopOps(tiles)| <= k < |Preparation(tiles, image)|
    ensures LoadPlan(b, tiles, image, pokes, wait)[..k] == Preparation(tiles, image)[..k]
    ensures LoadPlan(b, tiles, image, pokes, wait)[k].Load? ==>
      LoadPlan(b, tiles, image, pokes, wait)[k].tile in Targets(b, tiles)
  {
    hide StartOps, WindDown, StopOps, ListLoads;
    var plan, prep := LoadPlan(b, tiles, image, pokes, wait), Preparation(tiles, image);
    if k >= |prep| {
      LaterOpsAreNotLoads(b, tiles, pokes, wait, k - |prep|);
    }
    StopOpsAreStops(tiles);
    PlanAt(b, tiles, image, pokes, wait, k);
    var n := |StopOps(tiles)| + 2;
    if k >= n {
      LoadOpsAre(tiles, image, k - n);
      assert plan[k] == LoadOps(tiles, image)[k - n];
    }
  }

  /** Every image write finds every tile that the stop phase stopped, target or not, with all its
      cores in reset. */
  lemma ImagesLandUnderReset(
    b: Board, c: Chip, tiles: Option<seq<Coord>>, image: seq<Segment>, pokes: seq<Op>, wait: bool, steps: seq<Step>,
    k: nat, t: Coord)
    requires AvoidsReset(image) && OnlyPokes(pokes)
    requires Ops(steps) == LoadPlan(b, tiles, image, pokes, wait)
    requires k < |steps| && IsLoad(steps[k].op)
    requires t in c.mem && StopReaches(b, tiles, t)
    ensures InReset(Drift(ExecAll(b, c, steps[..k]), steps[k].changes).mem[t])
    ensures steps[k].op.Load? ==> steps[k].op.tile in Targets(b, tiles)
  {
    hide InReset, ExecAll, LoadPlan, StopOps, ListLoads, StopReaches, Preparation;
    assert LoadPlan(b, tiles, image, pokes, wait)[k] == steps[k].op;
    LoadIsPrepared(b, tiles, image, pokes, wait, k);
    PreparedInReset(b, c, tiles, image, steps, k, t);
    assert InReset(ExecAll(b, c, steps[..k]).mem[t]);
  }

  // ------------------------------------------------------- tiles that no stop reaches

  /** Writes that neither stop nor start tile `t`. */
  predicate Passive(b: Board, op: Op, t: Coord) {
    match op
    case SetReset(u, _) => u != t
    case SetResetAll(_) => !b.Reached(Noc0, t)
    case Load(_, segment) => ClearOfReset(segment.addr, |segment.data|)
    case LoadAll(_, segment) => ClearOfReset(segment.addr, |segment.data|)
    case Poke(_, addr, data) => ClearOfReset(addr, |data|)
    case _ => true
  }

  lemma PassiveKeeps(b: Board, c: Chip, op: Op, t: Coord)
    requires t in c.mem && Passive(b, op, t)
    ensures InReset(Exec(b, c, op).mem[t]) == InReset(c.mem[t])
  {
    hide InReset, WriteMem, ClearOfReset;
    match op
    case Load(_, segment) => ClearKeepsReset(c.mem[t], segment.addr, segment.data);
    case LoadAll(_, segment) => ClearKeepsReset(c.mem[t], segment.addr, segment.data);
    case Poke(_, addr, data) => ClearKeepsReset(c.mem[t], addr, data);
    case _ =>
  }

  lemma {:induction false} PassiveRunKeeps(b: Board, c: Chip, steps: seq<Step>, t: Coord)
    requires t in c.mem && forall i :: 0 <= i < |steps| ==> Passive(b, steps[i].op, t) && t !in steps[i].changes
    ensures InReset(ExecAll(b, c, steps).mem[t]) == InReset(c.mem[t])
    decreases |steps|
  {
    hide Exec, Passive, InReset;
    if steps != [] {
      var d := Drift(c, steps[0].changes);
      assert d.mem[t] == c.mem[t];
      PassiveKeeps(b, d, steps[0].op, t);
      PassiveRunKeeps(b, Exec(b, d, steps[0].op), steps[1..], t);
    }
  }

  lemma PreparationPassive(b: Board, image: seq<Segment>, i: nat, t: Coord)
    requires AvoidsReset(image) && !b.Reached(Noc0, t) && i < |Preparation(None, image)|
    ensures Passive(b, Preparation(None, image)[i], t)
  {
    hide Board.Reached, ClearOfReset;
  }

  /** In the all-tiles form, whether an image write finds a tile in reset: exactly when the stop
      broadcast reached it, or it was in reset before the call. So a tile that the image reaches
      and the stop does not is written while it runs. */
  lemma UnderResetIff(
    b: Board, c: Chip, image: seq<Segment>, pokes: seq<Op>, wait: bool, steps: seq<Step>, k: nat, t: Coord)
    requires AvoidsReset(image) && OnlyPokes(pokes)
    requires Ops(steps) == LoadPlan(b, None, image, pokes, wait)
    requires k < |steps| && IsLoad(steps[k].op)
    requires t in c.mem && forall i :: 0 <= i <= k ==> t !in steps[i].changes
    ensures InReset(Drift(ExecAll(b, c, steps[..k]), steps[k].changes).mem[t])
            <==> b.Reached(Noc0, t) || InReset(c.mem[t])
  {
    hide InReset, ExecAll, LoadPlan, Preparation, Passive, Board.Reached;
    if b.Reached(Noc0, t) {
      ImagesLandUnderReset(b, c, None, image, pokes, wait, steps, k, t);
    } else {
      assert LoadPlan(b, None, image, pokes, wait)[k] == steps[k].op;
      LoadIsPrepared(b, None, image, pokes, wait, k);
      forall i | 0 <= i < k
        ensures Passive(b, steps[..k][i].op, t)
      {
        PreparationPassive(b, image, i, t);
        assert steps[i].op == Ops(steps)[..k][i];
      }
      PassiveRunKeeps(b, c, steps[..k], t);
    }
  }

  // ------------------------------------------------------- the waiting path

  lemma {:induction false} NeverBusy(b: Board, c: Chip, steps: seq<Step>)
    requires !c.busy && forall i :: 0 <= i < |steps| ==> steps[i].op != Power(true)
    ensures !ExecAll(b, c, steps).busy
    decreases |steps|
  {
    if steps != [] {
      NeverBusy(b, Exec(b, Drift(c, steps[0].changes), steps[0].op), steps[1..]);
    }
  }

  lemma WindDownReset(b: Board, c: Chip, tiles: Option<seq<Coord>>, down: seq<Step>, i: nat)
    requires Ops(down) == WindDown(b, tiles)
    requires i < |Targets(b, tiles)| && Targets(b, tiles)[i] in c.mem
    ensures InReset(ExecAll(b, c, down).mem[Targets(b, tiles)[i]])
  {
    hide InReset, ExecAll, Harmless, Stops, StopOps, Targets;
    var t := Targets(b, tiles)[i];
    forall j | 0 <= j < |Ops(down)|
      ensures Harmless(Ops(down)[j])
    {
      WindDownIsHarmless(b, tiles, j);
    }
    assert down[i].op == Ops(down)[i] == SetReset(t, STOP);
    SingleStop(b, t);
    StoppedStays(b, c, down, t, i);
  }

  /** The waiting path leaves every target tile in reset and the chip idle. */
  lemma WaitEndsInResetAndIdle(
    b: Board, c: Chip, tiles: Option<seq<Coord>>, image: seq<Segment>, pokes: seq<Op>, steps: seq<Step>)
    requires Call(b, c, tiles, image) && OnlyPokes(pokes)
    requires Ops(steps) == LoadPlan(b, tiles, image, pokes, true)
    ensures !ExecAll(b, c, steps).busy
    ensures forall i :: 0 <= i < |Targets(b, tiles)| ==> InReset(ExecAll(b, c, steps).mem[Targets(b, tiles)[i]])
  {
    hide InReset, ExecAll, Preparation, StartOps, WindDown, AvoidsReset;
    var n := |Preparation(tiles, image) + StartOps(tiles) + pokes|;
    var down := steps[n..];
    assert steps[..n] + down == steps && steps[n..|steps|] == down;
    ExecAppend(b, c, steps[..n], down);
    OpsSlice(steps, n, |steps|);
    assert Ops(down) == WindDown(b, tiles);
    var mid := ExecAll(b, c, steps[..n]);
    forall i | 0 <= i < |Targets(b, tiles)|
      ensures InReset(ExecAll(b, mid, down).mem[Targets(b, tiles)[i]])
    {
      WindDownReset(b, mid, tiles, down, i);
    }
    WindDownIdle(b, mid, tiles, down);
  }

  lemma SingleStop(b: Board, t: Coord)
    ensures Stops(b, SetReset(t, STOP), t)
  {
  }

  lemma WindDownIdle(b: Board, c: Chip, tiles: Option<seq<Coord>>, down: seq<Step>)
    requires Ops(down) == WindDown(b, tiles)
    ensures !ExecAll(b, c, down).busy
  {
    hide StopOps, Targets, Drift;
    var n := |Targets(b, tiles)|;
    assert down[n].op == Ops(down)[n] == Power(false);
    assert down[..n] + down[n..] == down;
    ExecAppend(b, c, down[..n], down[n..]);
    var mid := ExecAll(b, c, down[..n]);
    var next := Exec(b, Drift(mid, down[n].changes), down[n].op);
    assert ExecAll(b, mid, down[n..]) == ExecAll(b, next, down[n..][1..]);
    forall i | 0 <= i < |down[n..][1..]|
      ensures down[n..][1..][i].op != Power(true)
    {
      assert down[n..][1..][i].op == Ops(down)[n + 1 + i];
      WindDownIsHarmless(b, tiles, n + 1 + i);
    }
    NeverBusy(b, next, down[n..][1..]);
  }

  lemma StopsHarmless(tiles: Option<seq<Coord>>)
    ensures AllHarmless(StopOps(tiles))
  {
    StopOpsAreStops(tiles);
  }

  /** After a stop phase every tile that it reaches is in reset. */
  lemma StopPhaseEnds(b: Board, c: Chip, tiles: Option<seq<Coord>>, steps: seq<Step>, t: Coord)
    requires Ops(steps) == StopOps(tiles) && t in c.mem && StopReaches(b, tiles, t)
    ensures InReset(ExecAll(b, c, steps).mem[t])
  {
    hide InReset, ExecAll, StopOps, StopReaches, Stops, Harmless;
    StopsHarmless(tiles);
    StopPhaseStops(b, tiles, t);
    var k :| 0 <= k < |StopOps(tiles)| && Stops(b, StopOps(tiles)[k], t);
    assert steps[k].op == Ops(steps)[k];
    StoppedStays(b, c, steps, t, k);
  }

  // ------------------------------------------------------- the single-tile path

  /** A single-tile load begins with a non-waiting load of the list that holds its tile, so what
      holds of those loads holds of it up to the start. */
  lemma QuickLoadIsLoad(b: Board, t: Coord, image: seq<Segment>, pokes: seq<Op>, wait: bool)
    ensures QuickPlan(t, image, pokes, wait)
            == LoadPlan(b, Some([t]), image, pokes, false) + (if wait then [SetReset(t, STOP)] else [])
  {
    hide Preparation, StartOps;
  }

  /** So its image too lands while its tile is in reset. */
  lemma QuickImageUnderReset(
    b: Board, c: Chip, t: Coord, image: seq<Segment>, pokes: seq<Op>, wait: bool, steps: seq<Step>, k: nat)
    requires t in c.mem && AvoidsReset(image) && OnlyPokes(pokes)
    requires Ops(steps) == QuickPlan(t, image, pokes, wait) && k < |steps| && IsLoad(steps[k].op)
    ensures InReset(Drift(ExecAll(b, c, steps[..k]), steps[k].changes).mem[t])
    ensures steps[k].op.Load? && steps[k].op.tile == t
  {
    hide InReset, ExecAll, QuickPlan, LoadPlan, AvoidsReset, OnlyPokes;
    var n := |LoadPlan(b, Some([t]), image, pokes, false)|;
    QuickLoadIsLoad(b, t, image, pokes, wait);
    assert steps[k].op == Ops(steps)[k];
    var first := steps[..n];
    OpsSlice(steps, 0, n);
    assert steps[0..n] == first && first[..k] == steps[..k];
    ImagesLandUnderReset(b, c, Some([t]), image, pokes, false, first, k, t);
    QuickLoadsToTile(b, t, image, pokes, k);
  }

  lemma QuickLoadsToTile(b: Board, t: Coord, image: seq<Segment>, pokes: seq<Op>, k: nat)
    requires OnlyPokes(pokes) && k < |LoadPlan(b, Some([t]), image, pokes, false)|
    requires IsLoad(LoadPlan(b, Some([t]), image, pokes, false)[k])
    ensures LoadPlan(b, Some([t]), image, pokes, false)[k].Load?
    ensures LoadPlan(b, Some([t]), image, pokes, false)[k].tile == t
  {
    hide LoadPlan, LoadOps, StopOps;
    LoadIsPrepared(b, Some([t]), image, pokes, false, k);
    PlanAt(b, Some([t]), image, pokes, false, k);
    StopOpsAreStops(Some([t]));
    var n := |StopOps(Some([t]))| + 2;
    if k >= n {
      LoadOpsAre(Some([t]), image, k - n);
    }
  }

  lemma {:induction false} StaysBusy(b: Board, c: Chip, steps: seq<Step>, k: nat)
    requires c.busy || (k < |steps| && steps[k].op == Power(true))
    requires forall i :: 0 <= i < |steps| ==> steps[i].op != Power(false)
    ensures ExecAll(b, c, steps).busy
    decreases |steps|
  {
    hide Drift;
    if steps != [] {
      var d := Drift(c, steps[0].changes);
      assert d.busy == c.busy;
      StaysBusy(b, Exec(b, d, steps[0].op), steps[1..], if k > 0 then k - 1 else 0);
    }
  }

  lemma QuickLoadPower(t: Coord, image: seq<Segment>, pokes: seq<Op>, i: nat)
    requires OnlyPokes(pokes) && i < |QuickPlan(t, image, pokes, true)|
    ensures |QuickPlan(t, image, pokes, true)| > 2 && QuickPlan(t, image, pokes, true)[2] == Power(true)
    ensures QuickPlan(t, image, pokes, true)[i] != Power(false)
  {
    hide LoadOps;
    var loads := LoadOps(Some([t]), image);
    assert StopOps(Some([t])) == [SetReset(t, STOP)];
    if 3 <= i < 3 + |loads| {
      LoadOpsAre(Some([t]), image, i - 3);
    }
  }

  /** A waiting single-tile load ends with the tile in reset; the chip, unlike after a waiting
      load of a list, stays busy. */
  lemma QuickLoadEnds(b: Board, c: Chip, t: Coord, image: seq<Segment>, pokes: seq<Op>, steps: seq<Step>)
    requires t in c.mem && OnlyPokes(pokes) && Ops(steps) == QuickPlan(t, image, pokes, true)
    ensures InReset(ExecAll(b, c, steps).mem[t]) && ExecAll(b, c, steps).busy
  {
    hide InReset, ExecAll, QuickPlan;
    var n := |steps| - 1;
    QuickLoadLast(t, image, pokes);
    QuickLoadPower(t, image, pokes, 0);
    assert steps[..n] + steps[n..] == steps && steps[n..|steps|] == steps[n..];
    ExecAppend(b, c, steps[..n], steps[n..]);
    OpsSlice(steps, n, |steps|);
    SingleStop(b, t);
    assert Ops(steps[n..]) == [SetReset(t, STOP)];
    StoppedStays(b, ExecAll(b, c, steps[..n]), steps[n..], t, 0);
    forall i | 0 <= i < |steps|
      ensures steps[i].op != Power(false)
    {
      QuickLoadPower(t, image, pokes, i);
      assert steps[i].op == Ops(steps)[i];
    }
    assert steps[2].op == Ops(steps)[2];
    StaysBusy(b, c, steps, 2);
  }

  lemma QuickLoadLast(t: Coord, image: seq<Segment>, pokes: seq<Op>)
    ensures var plan := QuickPlan(t, image, pokes, true);
            plan != [] && plan[|plan| - 1] == SetReset(t, STOP)
  {
  }
}
