/** What a load must have done by the time it ends, said of the chip and the accesses made, not of
    the plan that made them: the image was in place, and then every tile was started. */
module LoaderOutcome {
  import opened Bits
  import opened Coords
  import opened LoaderModel
  import opened LoaderSafety
  import opened LoaderContents
  import opened Wrappers

  /** The reset word of a started tile: BRISC runs, the TRISCs and NCRISC are held, the start is
      staggered. */
  const STARTED: nat := 0x8004_7000

  /** Access `k`, after every load, starts tile `t` on a busy chip whose RISC-V reset was deasserted. */
  predicate LaunchedAt(b: Board, initial: Chip, log: seq<Step>, lo: nat, t: Coord, k: nat)
    requires k < |log|
  {
    var c := ExecAll(b, initial, log[..k + 1]);
    && (forall j :: lo <= j < |log| && IsLoad(log[j].op) ==> j < k)
    && (exists d :: lo <= d < k && log[d].op == DeassertRiscvReset)
    && t in c.mem && !InReset(c.mem[t]) && MemWord(c.mem[t], RESET) == STARTED
    && c.busy
  }

  predicate Launched(b: Board, initial: Chip, log: seq<Step>, lo: nat, t: Coord) {
    exists k :: lo <= k < |log| && LaunchedAt(b, initial, log, lo, t, k)
  }

  /** Before access `n` the tile is in reset and holds every byte of the image; all loads come
      before it and all starts from it on. */
  predicate ImageReadyAt(b: Board, initial: Chip, log: seq<Step>, lo: nat, image: seq<Segment>, t: Coord, n: nat)
    requires n <= |log|
  {
    var c := ExecAll(b, initial, log[..n]);
    && t in c.mem && InReset(c.mem[t])
    && (forall a :: a in Footprint(image) ==> a in c.mem[t] && c.mem[t][a] == Footprint(image)[a])
    && (forall j :: lo <= j < |log| && IsLoad(log[j].op) ==> j < n)
    && (forall j :: lo <= j < |log| && IsStart(log[j].op) ==> n <= j)
  }

  predicate ImageReady(b: Board, initial: Chip, log: seq<Step>, lo: nat, image: seq<Segment>, t: Coord) {
    exists n :: lo <= n <= |log| && ImageReadyAt(b, initial, log, lo, image, t, n)
  }

  // ------------------------------------------------------- one start

  lemma StartWord(m: Memory)
    ensures MemWord(WriteMem(m, RESET, Start(true, true)), RESET) == STARTED
  {
    hide Value, MemWord;
    WordWritten(m, RESET, Start(true, true));
    ResetValues(true, true);
  }

  /** The access that starts tile `t`. */
  predicate StartsTile(b: Board, op: Op, t: Coord) {
    op == SetReset(t, Start(true, true)) || (op == SetResetAll(Start(true, true)) && b.Reached(Noc0, t))
  }

  lemma StartTakesEffect(b: Board, c: Chip, op: Op, t: Coord)
    requires t in c.mem && StartsTile(b, op, t)
    ensures var d := Exec(b, c, op); !InReset(d.mem[t]) && MemWord(d.mem[t], RESET) == STARTED && d.busy == c.busy
  {
    hide InReset, MemWord, WriteMem, Start, Board.Reached;
    StartReleases(c.mem[t], true, true);
    StartWord(c.mem[t]);
  }

  lemma SomeStart(b: Board, tiles: Option<seq<Coord>>, t: Coord)
    requires StopReaches(b, tiles, t)
    ensures exists i :: 0 <= i < |StartOps(tiles)| && StartsTile(b, StartOps(tiles)[i], t)
  {
    hide Start, Board.Reached;
    if tiles.Some? {
      var i :| 0 <= i < |tiles.value| && tiles.value[i] == t;
      assert StartsTile(b, StartOps(tiles)[i], t);
    } else {
      assert StartsTile(b, StartOps(tiles)[0], t);
    }
  }

  /** From the wake-up to the last start nothing sends the chip to sleep. */
  lemma AwakeOps(tiles: Option<seq<Coord>>, image: seq<Segment>, i: nat)
    requires i < |[Power(true)] + LoadOps(tiles, image) + StartOps(tiles)|
    ensures ([Power(true)] + LoadOps(tiles, image) + StartOps(tiles))[i] != Power(false)
  {
    hide LoadOps, Start;
    var loads := LoadOps(tiles, image);
    if 1 <= i < 1 + |loads| {
      LoadOpsAre(tiles, image, i - 1);
    }
  }

  lemma PreparationShape(tiles: Option<seq<Coord>>, image: seq<Segment>)
    ensures var p, s := Preparation(tiles, image), |StopOps(tiles)|;
            && |p| >= s + 2 && p[s] == DeassertRiscvReset
            && p[s + 1..] == [Power(true)] + LoadOps(tiles, image)
  {
    hide StopOps, LoadOps;
  }

  // ------------------------------------------------------- a whole call

  /** The run of a call, cut out of a log. */
  predicate IsCall(
    b: Board, before: seq<Step>, log: seq<Step>, tiles: Option<seq<Coord>>, image: seq<Segment>, pokes: seq<Op>,
    wait: bool)
  {
    before <= log && Ops(log) == Ops(before) + LoadPlan(b, tiles, image, pokes, wait) && OnlyPokes(pokes)
  }

  lemma CallOp(
    b: Board, before: seq<Step>, log: seq<Step>, tiles: Option<seq<Coord>>, image: seq<Segment>, pokes: seq<Op>,
    wait: bool, j: nat)
    requires IsCall(b, before, log, tiles, image, pokes, wait) && |before| <= j < |log|
    ensures var plan, i := LoadPlan(b, tiles, image, pokes, wait), j - |before|;
            && |log| == |before| + |plan| && i < |plan| && log[j].op == plan[i]
            && (i < |Preparation(tiles, image)| ==> log[j].op == Preparation(tiles, image)[i])
            && (|Preparation(tiles, image)| <= i < |Preparation(tiles, image) + StartOps(tiles)| ==>
                  log[j].op == StartOps(tiles)[i - |Preparation(tiles, image)|])
  {
    hide Preparation, StartOps, WindDown;
    assert log[j].op == Ops(log)[j];
  }

  lemma CallLength(
    b: Board, before: seq<Step>, log: seq<Step>, tiles: Option<seq<Coord>>, image: seq<Segment>, pokes: seq<Op>,
    wait: bool)
    requires IsCall(b, before, log, tiles, image, pokes, wait)
    ensures |before| + |Preparation(tiles, image)| + |StartOps(tiles)| <= |log|
  {
    hide Preparation, StartOps, WindDown;
  }

  /** Every load of a call lies in its preparation, every start after it. */
  lemma LoadsThenStarts(
    b: Board, before: seq<Step>, log: seq<Step>, tiles: Option<seq<Coord>>, image: seq<Segment>, pokes: seq<Op>,
    wait: bool, j: nat)
    requires IsCall(b, before, log, tiles, image, pokes, wait) && |before| <= j < |log|
    ensures IsLoad(log[j].op) ==> j < |before| + |Preparation(tiles, image)|
    ensures IsStart(log[j].op) ==> |before| + |Preparation(tiles, image)| <= j
  {
    hide Preparation, StartOps, WindDown, LoadPlan, OnlyPokes, IsLoad, IsStart;
    CallOp(b, before, log, tiles, image, pokes, wait, j);
    if IsLoad(log[j].op) {
      LoadIsPrepared(b, tiles, image, pokes, wait, j - |before|);
    }
    PreparationHasNoStarts(tiles, image);
  }

  /** At the start phase of a call the chip is busy. */
  lemma BusyAt(
    b: Board, initial: Chip, before: seq<Step>, log: seq<Step>, tiles: Option<seq<Coord>>, image: seq<Segment>,
    pokes: seq<Op>, wait: bool, k: nat)
    requires IsCall(b, before, log, tiles, image, pokes, wait)
    requires |before| + |Preparation(tiles, image)| <= k < |before| + |Preparation(tiles, image)| + |StartOps(tiles)|
    requires k < |log|
    ensures ExecAll(b, initial, log[..k + 1]).busy
    ensures |before| + |StopOps(tiles)| < k && log[|before| + |StopOps(tiles)|].op == DeassertRiscvReset
  {
    hide ExecAll, Preparation, StartOps, LoadOps, StopOps, LoadPlan, IsCall;
    var s := |before| + |StopOps(tiles)|;
    PreparationShape(tiles, image);
    CallOp(b, before, log, tiles, image, pokes, wait, s);
    var awake := log[s + 1..k + 1];
    assert log[..s + 1] + awake == log[..k + 1];
    ExecAppend(b, initial, log[..s + 1], awake);
    forall i | 0 <= i < |awake|
      ensures awake[i].op == ([Power(true)] + LoadOps(tiles, image) + StartOps(tiles))[i]
      ensures awake[i].op != Power(false)
    {
      AwakeOp(b, before, log, tiles, image, pokes, wait, i);
      AwakeOps(tiles, image, i);
    }
    assert awake[0].op == Power(true);
    StaysBusy(b, ExecAll(b, initial, log[..s + 1]), awake, 0);
  }

  lemma AwakeOp(
    b: Board, before: seq<Step>, log: seq<Step>, tiles: Option<seq<Coord>>, image: seq<Segment>, pokes: seq<Op>,
    wait: bool, i: nat)
    requires IsCall(b, before, log, tiles, image, pokes, wait)
    requires i < 1 + |LoadOps(tiles, image)| + |StartOps(tiles)| && |before| + |StopOps(tiles)| + 1 + i < |log|
    ensures log[|before| + |StopOps(tiles)| + 1 + i].op == ([Power(true)] + LoadOps(tiles, image) + StartOps(tiles))[i]
  {
    hide StartOps, LoadOps, StopOps, LoadPlan, IsCall, Preparation;
    var j := |before| + |StopOps(tiles)| + 1 + i;
    PreparationShape(tiles, image);
    CallOp(b, before, log, tiles, image, pokes, wait, j);
    if i < 1 + |LoadOps(tiles, image)| {
      assert Preparation(tiles, image)[|StopOps(tiles)| + 1..][i] == Preparation(tiles, image)[j - |before|];
    }
  }

  lemma LastAccess(b: Board, initial: Chip, log: seq<Step>, k: nat)
    requires k < |log|
    ensures ExecAll(b, initial, log[..k + 1])
            == Exec(b, Drift(ExecAll(b, initial, log[..k]), log[k].changes), log[k].op)
  {
    hide Exec;
    assert log[..k] + [log[k]] == log[..k + 1];
    ExecAppend(b, initial, log[..k], [log[k]]);
    assert [log[k]][1..] == [];
  }

  /** Every tile that the call is about is started: those of its list, or all that the broadcast
      reaches. */
  lemma CallLaunches(
    b: Board, initial: Chip, before: seq<Step>, log: seq<Step>, tiles: Option<seq<Coord>>, image: seq<Segment>,
    pokes: seq<Op>, wait: bool, t: Coord)
    requires IsCall(b, before, log, tiles, image, pokes, wait) && t in initial.mem && StopReaches(b, tiles, t)
    ensures Launched(b, initial, log, |before|, t)
  {
    hide ExecAll, Preparation, StartOps, StopOps, LoadPlan, StartsTile, IsCall, Exec, InReset, MemWord;
    hide StopReaches, Drift;
    SomeStart(b, tiles, t);
    var i :| 0 <= i < |StartOps(tiles)| && StartsTile(b, StartOps(tiles)[i], t);
    var k := |before| + |Preparation(tiles, image)| + i;
    CallLength(b, before, log, tiles, image, pokes, wait);
    CallExtends(before, log, b, tiles, image, pokes, wait);
    CallOp(b, before, log, tiles, image, pokes, wait, k);
    LastAccess(b, initial, log, k);
    StartTakesEffect(b, Drift(ExecAll(b, initial, log[..k]), log[k].changes), log[k].op, t);
    BusyAt(b, initial, before, log, tiles, image, pokes, wait, k);
    forall j | |before| <= j < |log| && IsLoad(log[j].op)
      ensures j < k
    {
      LoadsThenStarts(b, before, log, tiles, image, pokes, wait, j);
    }
    assert LaunchedAt(b, initial, log, |before|, t, k);
  }

  lemma CallExtends(
    before: seq<Step>, log: seq<Step>, b: Board, tiles: Option<seq<Coord>>, image: seq<Segment>, pokes: seq<Op>,
    wait: bool)
    requires IsCall(b, before, log, tiles, image, pokes, wait)
    ensures before <= log
  {
  }

  /** And before that every target of the call holds the image, in reset. */
  lemma CallReadies(
    b: Board, initial: Chip, before: seq<Step>, log: seq<Step>, tiles: Option<seq<Coord>>, image: seq<Segment>,
    pokes: seq<Op>, wait: bool, t: Coord)
    requires IsCall(b, before, log, tiles, image, pokes, wait)
    requires Call(b, ExecAll(b, initial, before), tiles, image) && t in Targets(b, tiles)
    ensures ImageReady(b, initial, log, |before|, image, t)
  {
    hide ExecAll, Preparation, StartOps, StopOps, LoadPlan, IsCall, Exec, InReset, LoadImage, Footprint;
    hide Call, Targets, StopReaches;
    var n := |before| + |Preparation(tiles, image)|;
    CallLength(b, before, log, tiles, image, pokes, wait);
    CallExtends(before, log, b, tiles, image, pokes, wait);
    var c, prep := ExecAll(b, initial, before), log[|before|..n];
    assert before + prep == log[..n];
    ExecAppend(b, initial, before, prep);
    PreparationOps(b, before, log, tiles, image, pokes, wait);
    ReadyInReset(b, c, tiles, image, prep, t);
    StartedWithImage(b, c, tiles, image, prep, t);
    PreparationShape(tiles, image);
    LoadIsOverlay(ExecAll(b, c, prep[..|StopOps(tiles)| + 2]).mem[t], image);
    forall j | |before| <= j < |log|
      ensures IsLoad(log[j].op) ==> j < n
      ensures IsStart(log[j].op) ==> n <= j
    {
      LoadsThenStarts(b, before, log, tiles, image, pokes, wait, j);
    }
    assert ImageReadyAt(b, initial, log, |before|, image, t, n);
  }

  lemma PreparationOps(
    b: Board, before: seq<Step>, log: seq<Step>, tiles: Option<seq<Coord>>, image: seq<Segment>, pokes: seq<Op>,
    wait: bool)
    requires IsCall(b, before, log, tiles, image, pokes, wait)
    ensures |before| + |Preparation(tiles, image)| <= |log|
    ensures Ops(log[|before|..|before| + |Preparation(tiles, image)|]) == Preparation(tiles, image)
  {
    hide Preparation, StartOps, WindDown;
    OpsSlice(log, |before|, |before| + |Preparation(tiles, image)|);
  }

  lemma ReadyInReset(
    b: Board, c: Chip, tiles: Option<seq<Coord>>, image: seq<Segment>, prep: seq<Step>, t: Coord)
    requires Call(b, c, tiles, image) && t in Targets(b, tiles) && Ops(prep) == Preparation(tiles, image)
    ensures t in c.mem && InReset(ExecAll(b, c, prep).mem[t])
  {
    hide ExecAll, Preparation, StopOps, InReset, Call, Targets, StopReaches;
    TargetsStopped(b, c, tiles, image, t);
    PreparationShape(tiles, image);
    assert prep[..|prep|] == prep && Ops(prep)[..|prep|] == Preparation(tiles, image)[..|prep|];
    PreparedInReset(b, c, tiles, image, prep, |prep|, t);
  }

  // ------------------------------------------------------- going idle

  /** The targets are in reset. */
  predicate AllHeld(c: Chip, targets: seq<Coord>) {
    forall i :: 0 <= i < |targets| && targets[i] in c.mem ==> InReset(c.mem[targets[i]])
  }

  /** Once a tile has been started, the chip is sent to sleep only with all targets in reset. */
  predicate IdlesHeld(b: Board, initial: Chip, log: seq<Step>, lo: nat, targets: seq<Coord>) {
    forall j, k :: lo <= j < k < |log| && IsStart(log[j].op) && log[k].op == Power(false) ==>
      AllHeld(ExecAll(b, initial, log[..k]), targets)
  }

  /** Where the wind-down begins. */
  function DownFrom(before: seq<Step>, tiles: Option<seq<Coord>>, image: seq<Segment>, pokes: seq<Op>): nat {
    |before| + |Preparation(tiles, image)| + |StartOps(tiles)| + |pokes|
  }

  /** After the starts the chip goes idle only in the wind-down, which has stopped every target by
      then. */
  lemma IdleInWindDown(
    b: Board, before: seq<Step>, log: seq<Step>, tiles: Option<seq<Coord>>, image: seq<Segment>, pokes: seq<Op>,
    wait: bool, k: nat)
    requires IsCall(b, before, log, tiles, image, pokes, wait)
    requires |before| + |Preparation(tiles, image)| <= k < |log| && log[k].op == Power(false)
    ensures var d, n := DownFrom(before, tiles, image, pokes), |Targets(b, tiles)|;
            && wait && d + n <= k <= d + n + 1 && |log| == d + |WindDown(b, tiles)|
            && log[d + n].op == Power(false)
  {
    hide Preparation, Targets, Start;
    CallOp(b, before, log, tiles, image, pokes, wait, k);
    var d, n := DownFrom(before, tiles, image, pokes), |Targets(b, tiles)|;
    if k < d {
      assert false;
    }
    assert log[k].op == WindDown(b, tiles)[k - d];
    CallOp(b, before, log, tiles, image, pokes, wait, d + n);
  }

  lemma HeldByWindDown(
    b: Board, before: seq<Step>, log: seq<Step>, tiles: Option<seq<Coord>>, image: seq<Segment>, pokes: seq<Op>)
    requires IsCall(b, before, log, tiles, image, pokes, true)
    ensures var d, n := DownFrom(before, tiles, image, pokes), |Targets(b, tiles)|;
            d + n <= |log| && Ops(log[d..d + n]) == StopOps(Some(Targets(b, tiles)))
  {
    hide Preparation, Targets, StartOps;
    var d, n := DownFrom(before, tiles, image, pokes), |Targets(b, tiles)|;
    OpsSlice(log, d, d + n);
    var down := WindDown(b, tiles);
    assert down[..n] == EachTile(Targets(b, tiles), STOP);
    assert Ops(log)[d..][..n] == down[..n];
  }

  lemma CallIdlesHeld(
    b: Board, initial: Chip, before: seq<Step>, log: seq<Step>, tiles: Option<seq<Coord>>, image: seq<Segment>,
    pokes: seq<Op>, wait: bool)
    requires IsCall(b, before, log, tiles, image, pokes, wait)
    ensures IdlesHeld(b, initial, log, |before|, Targets(b, tiles))
  {
    hide ExecAll, Preparation, StartOps, StopOps, LoadPlan, WindDown, IsCall, Exec, AllHeld, Targets, IsStart, Drift;
    forall j, k | |before| <= j < k < |log| && IsStart(log[j].op) && log[k].op == Power(false)
      ensures AllHeld(ExecAll(b, initial, log[..k]), Targets(b, tiles))
    {
      LoadsThenStarts(b, before, log, tiles, image, pokes, wait, j);
      IdleInWindDown(b, before, log, tiles, image, pokes, wait, k);
      HeldByWindDown(b, before, log, tiles, image, pokes);
      var d, n := DownFrom(before, tiles, image, pokes), |Targets(b, tiles)|;
      StoppedTargetsHeld(b, initial, log, d, n, Targets(b, tiles));
      if k == d + n + 1 {
        LastAccess(b, initial, log, d + n);
        SleepHolds(b, ExecAll(b, initial, log[..d + n]), log[d + n].changes, Targets(b, tiles));
      }
    }
  }

  lemma StoppedTargetsHeld(b: Board, initial: Chip, log: seq<Step>, d: nat, n: nat, targets: seq<Coord>)
    requires d + n <= |log| && Ops(log[d..d + n]) == StopOps(Some(targets))
    ensures AllHeld(ExecAll(b, initial, log[..d + n]), targets)
  {
    hide ExecAll, InReset, StopOps;
    var steps := log[d..d + n];
    assert log[..d] + steps == log[..d + n];
    ExecAppend(b, initial, log[..d], steps);
    forall i | 0 <= i < |targets| && targets[i] in ExecAll(b, initial, log[..d + n]).mem
      ensures InReset(ExecAll(b, initial, log[..d + n]).mem[targets[i]])
    {
      StopPhaseEnds(b, ExecAll(b, initial, log[..d]), Some(targets), steps, targets[i]);
    }
  }

  lemma SleepHolds(b: Board, c: Chip, changes: map<Coord, Memory>, targets: seq<Coord>)
    requires AllHeld(c, targets)
    ensures AllHeld(Exec(b, Drift(c, changes), Power(false)), targets)
  {
    hide InReset;
  }

  // ------------------------------------------------------- the single-tile path

  /** What a log has launched stays launched when accesses other than loads are added. */
  lemma LaunchedStays(b: Board, initial: Chip, log: seq<Step>, log': seq<Step>, lo: nat, t: Coord)
    requires Launched(b, initial, log, lo, t) && log <= log'
    requires forall j :: |log| <= j < |log'| ==> !IsLoad(log'[j].op)
    ensures Launched(b, initial, log', lo, t)
  {
    hide ExecAll, InReset, MemWord;
    var k :| lo <= k < |log| && LaunchedAt(b, initial, log, lo, t, k);
    assert log'[..k + 1] == log[..k + 1];
    var d :| lo <= d < k && log[d].op == DeassertRiscvReset;
    assert log'[d].op == DeassertRiscvReset;
    forall j | lo <= j < |log'| && IsLoad(log'[j].op)
      ensures j < k
    {
      assert log[j] == log'[j];
    }
    assert LaunchedAt(b, initial, log', lo, t, k);
  }

  lemma QuickCallLaunches(
    b: Board, initial: Chip, before: seq<Step>, log: seq<Step>, tile: Coord, image: seq<Segment>, pokes: seq<Op>,
    wait: bool)
    requires before <= log && Ops(log) == Ops(before) + QuickPlan(tile, image, pokes, wait) && OnlyPokes(pokes)
    requires tile in initial.mem
    ensures Launched(b, initial, log, |before|, tile)
  {
    hide QuickPlan, LoadPlan, Launched, OnlyPokes;
    QuickLoadIsLoad(b, tile, image, pokes, wait);
    var n := |before| + |LoadPlan(b, Some([tile]), image, pokes, false)|;
    var first := log[..n];
    var stop := if wait then [SetReset(tile, STOP)] else [];
    QuickPrefix(Ops(log), Ops(before), LoadPlan(b, Some([tile]), image, pokes, false), stop);
    OpsSlice(log, 0, n);
    assert log[0..n] == first && before <= first;
    CallLaunches(b, initial, before, first, Some([tile]), image, pokes, false, tile);
    forall j | n <= j < |log|
      ensures !IsLoad(log[j].op)
    {
      assert log[j].op == Ops(log)[j] == SetReset(tile, STOP);
    }
    LaunchedStays(b, initial, first, log, |before|, tile);
  }

  lemma QuickPrefix(ops: seq<Op>, before: seq<Op>, plan: seq<Op>, rest: seq<Op>)
    requires ops == before + (plan + rest)
    ensures ops[0..|before| + |plan|] == before + plan && ops[|before| + |plan|..] == rest
  {
  }
}
