/** What a 3 in the sync word means after a load: that the tile's own cores wrote it. */
module LoaderStart {
  import opened Bits
  import opened Coords
  import opened LoaderModel
  import opened LoaderSafety
  import opened LoaderContents
  import opened Loader
  import opened Wrappers

  /** Two words do not overlap. */
  predicate Apart(a: nat, b: nat) {
    a + 4 <= b || b + 4 <= a
  }

  /** An access that leaves the sync word of tile `t` alone, or writes a 2 to it. */
  predicate NoThree(op: Op, t: Coord, sync: nat) {
    match op
    case SetReset(_, value) => |value| == 4
    case SetResetAll(value) => |value| == 4
    case Load(_, _) => false
    case LoadAll(_, _) => false
    case Poke(u, addr, data) => u == t ==> (addr == sync && data == WordBytes(2)) || (|data| == 4 && Apart(addr, sync))
    case _ => true
  }

  lemma WordApart(m: Memory, addr: nat, data: seq<bv8>, sync: nat)
    requires |data| == 4 && Apart(addr, sync)
    ensures MemWord(WriteMem(m, addr, data), sync) == MemWord(m, sync)
  {
  }

  lemma ReleaseValue()
    ensures Value(WordBytes(2)) == 2
  {
    hide Value, WordBytes, Pow2;
    WordBytesValue(2);
    Pow2Monotone(2, 32);
    FourIsPow2();
    SmallMod(2, Pow2(32));
  }

  lemma FourIsPow2()
    ensures Pow2(2) == 4
  {
  }

  lemma SmallMod(x: nat, m: nat)
    requires x < m
    ensures x % m == x
  {
  }

  lemma WordReleased(m: Memory, sync: nat)
    ensures MemWord(WriteMem(m, sync, WordBytes(2)), sync) == 2
  {
    hide Value, WordBytes, MemWord;
    WordWritten(m, sync, WordBytes(2));
    ReleaseValue();
  }

  lemma StepNoThree(b: Board, c: Chip, op: Op, t: Coord, sync: nat)
    requires t in c.mem && NoThree(op, t, sync) && Apart(RESET, sync) && MemWord(c.mem[t], sync) != 3
    ensures MemWord(Exec(b, c, op).mem[t], sync) != 3
  {
    hide MemWord, WriteMem, WordBytes, Board.Reached, Apart;
    match op
    case SetReset(_, value) => WordApart(c.mem[t], RESET, value, sync);
    case SetResetAll(value) => WordApart(c.mem[t], RESET, value, sync);
    case Poke(u, addr, data) =>
      if u == t {
        if addr == sync && data == WordBytes(2) {
          WordReleased(c.mem[t], sync);
        } else {
          WordApart(c.mem[t], addr, data, sync);
        }
      }
    case _ =>
  }

  /** The cores of tile `t` write a 3 to its sync word before step `j`. */
  predicate CoreWroteThree(step: Step, t: Coord, sync: nat) {
    t in step.changes && MemWord(step.changes[t], sync) == 3
  }

  lemma DriftNoThree(c: Chip, step: Step, t: Coord, sync: nat)
    requires t in c.mem && MemWord(c.mem[t], sync) != 3 && !CoreWroteThree(step, t, sync)
    ensures MemWord(Drift(c, step.changes).mem[t], sync) != 3
  {
    hide MemWord;
  }

  /** A 3 that turns up was written by the tile's cores. */
  lemma {:induction false} ThreeIsTheirs(b: Board, c: Chip, steps: seq<Step>, t: Coord, sync: nat)
    requires t in c.mem && Apart(RESET, sync) && MemWord(c.mem[t], sync) != 3
    requires forall i :: 0 <= i < |steps| ==> NoThree(steps[i].op, t, sync)
    requires MemWord(ExecAll(b, c, steps).mem[t], sync) == 3
    ensures exists j :: 0 <= j < |steps| && CoreWroteThree(steps[j], t, sync)
    decreases |steps|
  {
    hide MemWord, NoThree, CoreWroteThree, Exec, Drift, Apart;
    if steps != [] {
      if !CoreWroteThree(steps[0], t, sync) {
        var d := Drift(c, steps[0].changes);
        DriftNoThree(c, steps[0], t, sync);
        StepNoThree(b, d, steps[0].op, t, sync);
        ThreeIsTheirs(b, Exec(b, d, steps[0].op), steps[1..], t, sync);
        var j :| 0 <= j < |steps[1..]| && CoreWroteThree(steps[1..][j], t, sync);
        assert CoreWroteThree(steps[j + 1], t, sync);
      }
    }
  }

  // ------------------------------------------------------- a whole call

  /** The image sets the sync word, to something other than 3, clear of the reset register and of
      the word for the core's number. */
  predicate SetsSync(image: seq<Segment>, sym: Symbols) {
    && HoldsWord(Footprint(image), sym.sync) && MemWord(Footprint(image), sym.sync) != 3
    && Apart(RESET, sym.sync) && (sym.coreId.Some? ==> Apart(sym.coreId.value, sym.sync))
  }

  lemma LoadedWord(m: Memory, image: seq<Segment>, addr: nat)
    requires HoldsWord(Footprint(image), addr)
    ensures MemWord(LoadImage(m, image), addr) == MemWord(Footprint(image), addr)
  {
    hide LoadImage, Footprint, Value;
    LoadIsOverlay(m, image);
  }

  lemma DueIsNoThree(
    b: Board, initial: Chip, log: seq<Step>, k: nat, tiles: seq<Coord>, sym: Symbols, t: Coord)
    requires k < |log| && log[k].op.Poke? && PokeIsDue(b, initial, log, k, tiles, sym)
    requires sym.coreId.Some? ==> Apart(sym.coreId.value, sym.sync)
    ensures NoThree(log[k].op, t, sym.sync)
  {
    hide WordAt, ExecAll, WordBytes, Apart;
  }

  lemma LaterNoThree(b: Board, tiles: Option<seq<Coord>>, pokes: seq<Op>, wait: bool, j: nat, t: Coord, sync: nat)
    requires OnlyPokes(pokes) && j < |StartOps(tiles) + pokes + (if wait then WindDown(b, tiles) else [])|
    ensures var op := (StartOps(tiles) + pokes + (if wait then WindDown(b, tiles) else []))[j];
            !op.Poke? ==> NoThree(op, t, sync)
  {
    hide Targets, WordBytes, Apart;
  }

  /** After the loads the sync word of every target is what the image says. */
  lemma SyncLoaded(
    b: Board, c: Chip, tiles: Option<seq<Coord>>, image: seq<Segment>, prep: seq<Step>, sym: Symbols, t: Coord)
    requires Call(b, c, tiles, image) && t in Targets(b, tiles) && SetsSync(image, sym)
    requires Ops(prep) == Preparation(tiles, image)
    ensures t in c.mem && MemWord(ExecAll(b, c, prep).mem[t], sym.sync) != 3
  {
    hide ExecAll, Preparation, Targets, Call, MemWord, LoadImage, Footprint, HoldsWord, Apart, StopOps, Ops;
    TargetsStopped(b, c, tiles, image, t);
    StartedWithImage(b, c, tiles, image, prep, t);
    StopsFit(tiles, image);
    LoadedWord(ExecAll(b, c, prep[..|StopOps(tiles)| + 2]).mem[t], image, sym.sync);
  }

  lemma StopsFit(tiles: Option<seq<Coord>>, image: seq<Segment>)
    ensures |StopOps(tiles)| + 2 <= |Preparation(tiles, image)|
  {
  }

  /** Nothing after the loads writes a 3 to the sync word. */
  lemma LaterAccess(
    b: Board, initial: Chip, before: seq<Step>, log: seq<Step>, tiles: Option<seq<Coord>>, image: seq<Segment>,
    pokes: seq<Op>, wait: bool, sym: Symbols, t: Coord, i: nat)
    requires before <= log && Ops(log) == Ops(before) + LoadPlan(b, tiles, image, pokes, wait) && OnlyPokes(pokes)
    requires PokesAreDue(b, initial, log, |before|, Targets(b, tiles), sym)
    requires sym.coreId.Some? ==> Apart(sym.coreId.value, sym.sync)
    requires |before| + |Preparation(tiles, image)| <= i < |log|
    ensures NoThree(log[i].op, t, sym.sync)
  {
    hide ExecAll, Preparation, StartOps, WindDown, Targets, NoThree, PokeIsDue, Apart, OnlyPokes;
    var j := i - |before| - |Preparation(tiles, image)|;
    assert log[i].op == Ops(log)[i];
    LaterNoThree(b, tiles, pokes, wait, j, t, sym.sync);
    if log[i].op.Poke? {
      DueIsNoThree(b, initial, log, i, Targets(b, tiles), sym, t);
    }
  }

  /** In a call whose image sets the sync word, a 3 found there after the loads was written by the
      tile's own cores after the loads: so the start that a poll reports is real, or a state word
      showed it. */
  lemma StartIsReal(
    b: Board, initial: Chip, before: seq<Step>, log: seq<Step>, tiles: Option<seq<Coord>>, image: seq<Segment>,
    pokes: seq<Op>, wait: bool, sym: Symbols, t: Coord, k: nat)
    requires before <= log && Ops(log) == Ops(before) + LoadPlan(b, tiles, image, pokes, wait) && OnlyPokes(pokes)
    requires Call(b, ExecAll(b, initial, before), tiles, image) && t in Targets(b, tiles) && SetsSync(image, sym)
    requires PokesAreDue(b, initial, log, |before|, Targets(b, tiles), sym)
    requires |before| + |Preparation(tiles, image)| <= k <= |log|
    requires WordAt(ExecAll(b, initial, log[..k]), t, sym.sync) == 3
    ensures exists j :: |before| + |Preparation(tiles, image)| <= j < k && CoreWroteThree(log[j], t, sym.sync)
  {
    hide ExecAll, Preparation, StartOps, WindDown, Targets, Call, MemWord, NoThree, CoreWroteThree, PokesAreDue;
    hide Footprint, HoldsWord, Apart, OnlyPokes, LoadPlan, Ops;
    var n := |before| + |Preparation(tiles, image)|;
    var prep, later := log[|before|..n], log[n..k];
    var c, loaded := ExecAll(b, initial, before), ExecAll(b, initial, log[..n]);
    PrepOps(b, before, log, tiles, image, pokes, wait);
    TwoPhases(b, initial, before, log, n, k);
    SyncLoaded(b, c, tiles, image, prep, sym, t);
    forall i | 0 <= i < |later|
      ensures NoThree(later[i].op, t, sym.sync)
    {
      LaterAccess(b, initial, before, log, tiles, image, pokes, wait, sym, t, n + i);
    }
    ThreeIsTheirs(b, loaded, later, t, sym.sync);
    var j :| 0 <= j < |later| && CoreWroteThree(later[j], t, sym.sync);
    assert CoreWroteThree(log[n + j], t, sym.sync);
  }

  /** A log cut at two places, run piece by piece. */
  lemma TwoPhases(b: Board, initial: Chip, before: seq<Step>, log: seq<Step>, n: nat, k: nat)
    requires before <= log && |before| <= n <= k <= |log|
    ensures ExecAll(b, initial, log[..n]) == ExecAll(b, ExecAll(b, initial, before), log[|before|..n])
    ensures ExecAll(b, initial, log[..k]) == ExecAll(b, ExecAll(b, initial, log[..n]), log[n..k])
  {
    hide ExecAll;
    assert before + log[|before|..n] == log[..n] && log[..n] + log[n..k] == log[..k];
    ExecAppend(b, initial, before, log[|before|..n]);
    ExecAppend(b, initial, log[..n], log[n..k]);
  }

  lemma PrepOps(
    b: Board, before: seq<Step>, log: seq<Step>, tiles: Option<seq<Coord>>, image: seq<Segment>, pokes: seq<Op>,
    wait: bool)
    requires before <= log && Ops(log) == Ops(before) + LoadPlan(b, tiles, image, pokes, wait)
    ensures |before| + |Preparation(tiles, image)| <= |log|
    ensures Ops(log[|before|..|before| + |Preparation(tiles, image)|]) == Preparation(tiles, image)
  {
    hide Preparation, StartOps, WindDown;
    OpsSlice(log, |before|, |before| + |Preparation(tiles, image)|);
  }
}
