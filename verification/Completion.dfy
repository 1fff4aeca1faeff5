/** Deciding that a tile has finished: the count over its five state words, what the count means,
    and what it means when the words are read one at a time while the cores go on running. */
module Completion {

  const CORES: nat := 5

  // State words: 0 is not started, 1 and 2 are running, 3 and up are finished.

  predicate IsRunning(v: nat) {
    v == 1 || v == 2
  }

  predicate IsComplete(v: nat) {
    v >= 3
  }

  function CountComplete(values: seq<nat>): nat {
    if values == [] then 0 else (if values[0] >= 3 then 1 else 0) + CountComplete(values[1..])
  }

  function CountNotStarted(values: seq<nat>): nat {
    if values == [] then 0 else (if values[0] == 0 then 1 else 0) + CountNotStarted(values[1..])
  }

  /** The source's test on the words of the state symbols that are present. */
  predicate AllComplete(values: seq<nat>) {
    |values| == 0 || (CountComplete(values) > 0 && CountComplete(values) + CountNotStarted(values) == CORES)
  }

  lemma {:induction false} CompleteCount(values: seq<nat>)
    ensures CountComplete(values) + CountNotStarted(values) <= |values|
    ensures CountComplete(values) > 0 <==> exists i :: 0 <= i < |values| && IsComplete(values[i])
    ensures CountComplete(values) + CountNotStarted(values) == |values|
            <==> forall i :: 0 <= i < |values| ==> !IsRunning(values[i])
  {
    if values != [] {
      CompleteCount(values[1..]);
      var rest := values[1..];
      assert forall i :: 0 <= i < |rest| ==> rest[i] == values[i + 1];
      assert forall i :: 0 < i < |values| ==> values[i] == rest[i - 1];
      if exists i :: 0 <= i < |rest| && IsComplete(rest[i]) {
        var i :| 0 <= i < |rest| && IsComplete(rest[i]);
        assert IsComplete(values[i + 1]);
      }
      if forall i :: 0 <= i < |values| ==> !IsRunning(values[i]) {
        assert !IsRunning(values[0]);
        assert forall i :: 0 <= i < |rest| ==> !IsRunning(rest[i]) by {
          forall i | 0 <= i < |rest|
            ensures !IsRunning(rest[i])
          {
            assert !IsRunning(values[i + 1]);
          }
        }
      }
    }
  }

  /** The count means: no state symbols at all, or all five of them with at least one finished
      core and none running. With one to four symbols it can never hold. */
  lemma AllCompleteIff(values: seq<nat>)
    requires |values| <= CORES
    ensures AllComplete(values) <==>
            values == []
            || (|values| == CORES
                && (exists i :: 0 <= i < |values| && IsComplete(values[i]))
                && (forall i :: 0 <= i < |values| ==> !IsRunning(values[i])))
  {
    CompleteCount(values);
  }

  // ------------------------------------------------------- cores

  type Cores = seq<nat>

  /** Which core's program may start which: pairs of a starter and the core it starts. */
  type Starts = set<(nat, nat)>

  /** Core `i` changes its state word to `v`. Finished cores stay finished, and a core that has
      not started is started only by a running core that may start it. */
  predicate CoreStep(cores: Cores, i: nat, v: nat, starts: Starts) {
    && i < |cores|
    && (IsComplete(cores[i]) ==> IsComplete(v))
    && (cores[i] == 0 && v != 0 ==> exists j: nat :: j < |cores| && IsRunning(cores[j]) && (j, i) in starts)
  }

  /** Cores are started only by cores that come before them in the list. */
  predicate Forward(starts: Starts) {
    forall p :: p in starts && p.0 < CORES && p.1 < CORES && p.0 != p.1 ==> p.0 < p.1
  }

  predicate Quiescent(cores: Cores) {
    forall i :: 0 <= i < |cores| ==> !IsRunning(cores[i])
  }

  /** `path` is a run of core steps. */
  predicate CoreRun(cores: Cores, path: seq<(nat, nat)>, starts: Starts)
    decreases |path|
  {
    path == [] || (CoreStep(cores, path[0].0, path[0].1, starts)
                   && CoreRun(cores[path[0].0 := path[0].1], path[1..], starts))
  }

  function After(cores: Cores, path: seq<(nat, nat)>, starts: Starts): Cores
    requires CoreRun(cores, path, starts)
    decreases |path|
  {
    if path == [] then cores else After(cores[path[0].0 := path[0].1], path[1..], starts)
  }

  lemma QuiescentStep(cores: Cores, i: nat, v: nat, starts: Starts)
    requires Quiescent(cores) && CoreStep(cores, i, v, starts)
    ensures Quiescent(cores[i := v]) && (cores[i] == 0 ==> v == 0)
  {
  }

  /** Once complete, always complete: seen all at once, the test stays true in every later state. */
  lemma {:induction false} CompletionIsStable(cores: Cores, path: seq<(nat, nat)>, starts: Starts)
    requires |cores| == CORES && AllComplete(cores) && CoreRun(cores, path, starts)
    ensures |After(cores, path, starts)| == CORES && AllComplete(After(cores, path, starts))
    decreases |path|
  {
    if path != [] {
      var (i, v) := path[0];
      var next := cores[i := v];
      AllCompleteIff(cores);
      QuiescentStep(cores, i, v, starts);
      var k :| 0 <= k < |cores| && IsComplete(cores[k]);
      assert IsComplete(next[k]);
      AllCompleteIff(next);
      CompletionIsStable(next, path[1..], starts);
    }
  }

  // ------------------------------------------------------- reading one word at a time

  /** The host has read the words of the first |values| cores, at different times. */
  datatype Scan = Scan(cores: Cores, values: seq<nat>)

  datatype Action = Read | Core(i: nat, v: nat)

  predicate Enabled(s: Scan, a: Action, starts: Starts) {
    match a
    case Read => |s.values| < |s.cores|
    case Core(i, v) => CoreStep(s.cores, i, v, starts)
  }

  function Apply(s: Scan, a: Action): Scan
    requires a.Read? ==> |s.values| < |s.cores|
    requires a.Core? ==> a.i < |s.cores|
  {
    match a
    case Read => s.(values := s.values + [s.cores[|s.values|]])
    case Core(i, v) => s.(cores := s.cores[i := v])
  }

  predicate ScanRun(s: Scan, actions: seq<Action>, starts: Starts)
    decreases |actions|
  {
    actions == [] || (Enabled(s, actions[0], starts) && ScanRun(Apply(s, actions[0]), actions[1..], starts))
  }

  function EndOf(s: Scan, actions: seq<Action>, starts: Starts): Scan
    requires ScanRun(s, actions, starts)
    decreases |actions|
  {
    if actions == [] then s else EndOf(Apply(s, actions[0]), actions[1..], starts)
  }

  predicate NoneRunning(values: seq<nat>, k: nat)
    requires k <= |values|
  {
    forall j :: 0 <= j < k ==> !IsRunning(values[j])
  }

  /** A core that was read idle or finished, like all cores before it, is still what it was. */
  predicate Settled(s: Scan) {
    && |s.values| <= |s.cores|
    && forall k: nat :: k < |s.values| && NoneRunning(s.values, k + 1) ==>
         !IsRunning(s.cores[k]) && (IsComplete(s.values[k]) ==> IsComplete(s.cores[k]))
  }

  lemma SettledRead(s: Scan)
    requires Settled(s) && |s.values| < |s.cores|
    ensures Settled(Apply(s, Read))
  {
    var t := Apply(s, Read);
    forall k: nat | k < |t.values| && NoneRunning(t.values, k + 1)
      ensures !IsRunning(t.cores[k]) && (IsComplete(t.values[k]) ==> IsComplete(t.cores[k]))
    {
      assert t.values[k] == if k < |s.values| then s.values[k] else s.cores[k];
      if k < |s.values| {
        assert forall j :: 0 <= j < k + 1 ==> s.values[j] == t.values[j];
        assert NoneRunning(s.values, k + 1);
      }
    }
  }

  lemma SettledCore(s: Scan, i: nat, v: nat, starts: Starts)
    requires Forward(starts) && |s.cores| == CORES
    requires Settled(s) && CoreStep(s.cores, i, v, starts)
    ensures Settled(Apply(s, Core(i, v)))
  {
    var t := Apply(s, Core(i, v));
    forall k: nat | k < |t.values| && NoneRunning(t.values, k + 1)
      ensures !IsRunning(t.cores[k]) && (IsComplete(t.values[k]) ==> IsComplete(t.cores[k]))
    {
      forall j: nat | j <= k
        ensures !IsRunning(s.cores[j])
      {
        assert NoneRunning(s.values, j + 1);
      }
      assert IsComplete(s.values[k]) ==> IsComplete(s.cores[k]);
    }
  }

  lemma {:induction false} SettledRun(s: Scan, actions: seq<Action>, starts: Starts)
    requires Forward(starts) && |s.cores| == CORES
    requires Settled(s) && ScanRun(s, actions, starts)
    ensures Settled(EndOf(s, actions, starts))
    ensures |EndOf(s, actions, starts).cores| == CORES
    decreases |actions|
  {
    hide Settled, Forward;
    if actions != [] {
      match actions[0] {
        case Read => SettledRead(s);
        case Core(i, v) => SettledCore(s, i, v, starts);
      }
      SettledRun(Apply(s, actions[0]), actions[1..], starts);
    }
  }

  lemma SettledComplete(cores: Cores, values: seq<nat>)
    requires Settled(Scan(cores, values)) && |values| == |cores| == CORES && AllComplete(values)
    ensures Quiescent(cores) && AllComplete(cores)
  {
    AllCompleteIff(values);
    forall k: nat | k < CORES
      ensures !IsRunning(cores[k]) && (IsComplete(values[k]) ==> IsComplete(cores[k]))
    {
      assert NoneRunning(values, k + 1);
    }
    var k :| 0 <= k < |values| && IsComplete(values[k]);
    assert IsComplete(cores[k]);
    AllCompleteIff(cores);
  }

  /** If cores are only ever started by a running core that comes before them in the list (as
      BRISC, read first, starts the others), a word-by-word test that comes out true means that
      the tile is quiescent now, although no two words were read at the same time. */
  lemma WordByWordTestIsSound(cores: Cores, actions: seq<Action>, starts: Starts)
    requires |cores| == CORES && Forward(starts) && ScanRun(Scan(cores, []), actions, starts)
    ensures var s := EndOf(Scan(cores, []), actions, starts);
            |s.values| == CORES && AllComplete(s.values) ==> Quiescent(s.cores) && AllComplete(s.cores)
  {
    SettledRun(Scan(cores, []), actions, starts);
    var s := EndOf(Scan(cores, []), actions, starts);
    if |s.values| == CORES && AllComplete(s.values) {
      SettledComplete(s.cores, s.values);
    }
  }

  // ------------------------------------------------------- a start that goes backwards

  lemma {:induction false} RunAppend(s: Scan, a: seq<Action>, b: seq<Action>, starts: Starts)
    requires ScanRun(s, a, starts) && ScanRun(EndOf(s, a, starts), b, starts)
    ensures ScanRun(s, a + b, starts) && EndOf(s, a + b, starts) == EndOf(EndOf(s, a, starts), b, starts)
    decreases |a|
  {
    hide IsRunning, IsComplete;
    if a == [] {
      assert a + b == b;
    } else {
      assert (a + b)[1..] == a[1..] + b;
      RunAppend(Apply(s, a[0]), a[1..], b, starts);
    }
  }

  lemma OneStep(s: Scan, a: Action, starts: Starts)
    requires Enabled(s, a, starts)
    ensures ScanRun(s, [a], starts) && EndOf(s, [a], starts) == Apply(s, a)
  {
    assert [a][1..] == [];
  }

  lemma RunNothing(s: Scan, starts: Starts)
    ensures ScanRun(s, [], starts) && EndOf(s, [], starts) == s
  {
  }

  function Reads(n: nat): seq<Action> {
    if n == 0 then [] else Reads(n - 1) + [Read]
  }

  lemma SliceGrows(cores: Cores, lo: nat, n: nat)
    requires 0 < n && lo + n <= |cores|
    ensures cores[lo..lo + n] == cores[lo..lo + n - 1] + [cores[lo + n - 1]]
  {
  }

  lemma {:induction false} ReadsRun(s: Scan, n: nat, starts: Starts)
    requires |s.values| + n <= |s.cores|
    ensures ScanRun(s, Reads(n), starts)
    ensures EndOf(s, Reads(n), starts) == Scan(s.cores, s.values + s.cores[|s.values|..|s.values| + n])
    decreases n
  {
    hide ScanRun, EndOf;
    if n == 0 {
      RunNothing(s, starts);
      assert s.values + s.cores[|s.values|..|s.values|] == s.values;
    } else {
      ReadsRun(s, n - 1, starts);
      var t := EndOf(s, Reads(n - 1), starts);
      OneStep(t, Read, starts);
      RunAppend(s, Reads(n - 1), [Read], starts);
      SliceGrows(s.cores, |s.values|, n);
    }
  }

  /** Five words: core `i` holds `v`, core `j` holds `w`, the others have not started. */
  function Words(i: nat, v: nat, j: nat, w: nat): (cores: Cores)
    ensures |cores| == CORES
  {
    seq(CORES, k => if k == i then v else if k == j then w else 0)
  }

  /** Read core `i` idle, let core `j` start it and finish, read the rest. */
  function Backwards(i: nat, j: nat): seq<Action>
    requires i < j < CORES
  {
    Reads(i + 1) + [Core(i, 1), Core(j, 3)] + Reads(CORES - i - 1)
  }

  lemma BackwardSteps(i: nat, j: nat, values: seq<nat>, starts: Starts)
    requires i < j < CORES && (j, i) in starts
    ensures var steps := [Core(i, 1), Core(j, 3)];
            ScanRun(Scan(Words(i, 0, j, 1), values), steps, starts)
            && EndOf(Scan(Words(i, 0, j, 1), values), steps, starts) == Scan(Words(i, 1, j, 3), values)
  {
    var s := Scan(Words(i, 0, j, 1), values);
    assert IsRunning(s.cores[j]);
    OneStep(s, Core(i, 1), starts);
    var t := Apply(s, Core(i, 1));
    OneStep(t, Core(j, 3), starts);
    RunAppend(s, [Core(i, 1)], [Core(j, 3)], starts);
    assert [Core(i, 1)] + [Core(j, 3)] == [Core(i, 1), Core(j, 3)];
    assert Apply(t, Core(j, 3)).cores == Words(i, 1, j, 3);
  }

  lemma BackwardsRun(i: nat, j: nat, starts: Starts)
    requires i < j < CORES && (j, i) in starts
    ensures ScanRun(Scan(Words(i, 0, j, 1), []), Backwards(i, j), starts)
    ensures EndOf(Scan(Words(i, 0, j, 1), []), Backwards(i, j), starts) == Scan(Words(i, 1, j, 3), Words(i, 0, j, 3))
  {
    hide Words, ScanRun, EndOf, Reads;
    var before, after := Words(i, 0, j, 1), Words(i, 1, j, 3);
    var s, values := Scan(before, []), before[..i + 1];
    ReadsRun(s, i + 1, starts);
    assert [] + before[0..i + 1] == values;
    BackwardSteps(i, j, values, starts);
    RunAppend(s, Reads(i + 1), [Core(i, 1), Core(j, 3)], starts);
    ReadsRun(Scan(after, values), CORES - i - 1, starts);
    RunAppend(s, Reads(i + 1) + [Core(i, 1), Core(j, 3)], Reads(CORES - i - 1), starts);
    WordsRead(i, j);
  }

  lemma WordsRead(i: nat, j: nat)
    requires i < j < CORES
    ensures Words(i, 0, j, 1)[..i + 1] + Words(i, 1, j, 3)[i + 1..CORES] == Words(i, 0, j, 3)
  {
  }

  /** A single start that goes backwards in the list breaks the word-by-word test: core `j` starts
      core `i` just after `i` was read, and finishes before it is read itself. */
  lemma BackwardStartFoolsTest(i: nat, j: nat, starts: Starts) returns (cores: Cores, actions: seq<Action>)
    requires i < j < CORES && (j, i) in starts
    ensures |cores| == CORES && ScanRun(Scan(cores, []), actions, starts)
    ensures var s := EndOf(Scan(cores, []), actions, starts);
            |s.values| == CORES && AllComplete(s.values) && !Quiescent(s.cores)
  {
    hide ScanRun, EndOf;
    cores, actions := Words(i, 0, j, 1), Backwards(i, j);
    BackwardsRun(i, j, starts);
    assert IsComplete(Words(i, 0, j, 3)[j]) && IsRunning(Words(i, 1, j, 3)[i]);
    AllCompleteIff(Words(i, 0, j, 3));
  }

  /** Whenever the five words, read one at a time in any run, pass the test, no core is running. */
  ghost predicate WordByWordSound(starts: Starts) {
    forall cores: Cores, actions: seq<Action> ::
      |cores| == CORES && ScanRun(Scan(cores, []), actions, starts) ==>
        var s := EndOf(Scan(cores, []), actions, starts);
        |s.values| == CORES && AllComplete(s.values) ==> Quiescent(s.cores)
  }

  /** The word-by-word test can be trusted exactly when no core's program starts a core that comes
      before it in the list. */
  lemma SoundIffForward(starts: Starts)
    ensures WordByWordSound(starts) <==> Forward(starts)
  {
    hide ScanRun, EndOf, AllComplete, Quiescent;
    if Forward(starts) {
      forall cores: Cores, actions: seq<Action> | |cores| == CORES && ScanRun(Scan(cores, []), actions, starts)
        ensures var s := EndOf(Scan(cores, []), actions, starts);
                |s.values| == CORES && AllComplete(s.values) ==> Quiescent(s.cores)
      {
        WordByWordTestIsSound(cores, actions, starts);
      }
    } else {
      var p :| p in starts && p.0 < CORES && p.1 < CORES && p.0 != p.1 && p.1 < p.0;
      var cores, actions := BackwardStartFoolsTest(p.1, p.0, starts);
      assert ScanRun(Scan(cores, []), actions, starts);
    }
  }

  // ------------------------------------------------------- all_complete and wait as code

  /** A core step that breaks the rules does not happen. */
  function TryStep(cores: Cores, i: nat, v: nat, starts: Starts): (after: Cores)
    ensures |after| == |cores|
  {
    if CoreStep(cores, i, v, starts) then cores[i := v] else cores
  }

  function TrySteps(cores: Cores, batch: seq<(nat, nat)>, starts: Starts): (after: Cores)
    ensures |after| == |cores|
    decreases |batch|
  {
    if batch == [] then cores else TrySteps(TryStep(cores, batch[0].0, batch[0].1, starts), batch[1..], starts)
  }

  lemma {:induction false} SettledBatch(cores: Cores, values: seq<nat>, batch: seq<(nat, nat)>, starts: Starts)
    requires Forward(starts) && |cores| == CORES && Settled(Scan(cores, values))
    ensures Settled(Scan(TrySteps(cores, batch, starts), values))
    decreases |batch|
  {
    hide Settled, CoreStep, Forward;
    if batch != [] {
      if CoreStep(cores, batch[0].0, batch[0].1, starts) {
        SettledCore(Scan(cores, values), batch[0].0, batch[0].1, starts);
      }
      SettledBatch(TryStep(cores, batch[0].0, batch[0].1, starts), values, batch[1..], starts);
    }
  }

  lemma {:induction false} QuiescentBatch(cores: Cores, batch: seq<(nat, nat)>, starts: Starts)
    requires Quiescent(cores)
    ensures Quiescent(TrySteps(cores, batch, starts))
    decreases |batch|
  {
    hide Quiescent, CoreStep;
    if batch != [] {
      if CoreStep(cores, batch[0].0, batch[0].1, starts) {
        QuiescentStep(cores, batch[0].0, batch[0].1, starts);
      }
      QuiescentBatch(TryStep(cores, batch[0].0, batch[0].1, starts), batch[1..], starts);
    }
  }

  /** Finished cores stay finished. */
  lemma {:induction false} CompleteBatch(cores: Cores, batch: seq<(nat, nat)>, starts: Starts, i: nat)
    requires i < |cores| && IsComplete(cores[i])
    ensures IsComplete(TrySteps(cores, batch, starts)[i])
    decreases |batch|
  {
    hide IsComplete;
    if batch != [] {
      CompleteStep(cores, batch[0].0, batch[0].1, starts, i);
      CompleteBatch(TryStep(cores, batch[0].0, batch[0].1, starts), batch[1..], starts, i);
    }
  }

  lemma CompleteStep(cores: Cores, j: nat, v: nat, starts: Starts, i: nat)
    requires i < |cores| && IsComplete(cores[i])
    ensures IsComplete(TryStep(cores, j, v, starts)[i])
  {
  }

  /** All five cores at rest, one of them finished. */
  predicate Finished(cores: Cores) {
    |cores| == CORES && Quiescent(cores) && exists i :: 0 <= i < CORES && IsComplete(cores[i])
  }

  lemma FinishedBatch(cores: Cores, batch: seq<(nat, nat)>, starts: Starts)
    requires Finished(cores)
    ensures Finished(TrySteps(cores, batch, starts))
  {
    hide Quiescent, IsComplete, TrySteps;
    QuiescentBatch(cores, batch, starts);
    var i :| 0 <= i < CORES && IsComplete(cores[i]);
    CompleteBatch(cores, batch, starts, i);
  }

  /** What the words read so far show when core `k` was finished and no core ran at the start. */
  predicate ReadFinished(values: seq<nat>, k: nat) {
    && (forall j :: 0 <= j < |values| ==> !IsRunning(values[j]))
    && (k < |values| ==> IsComplete(values[k]))
  }

  lemma ReadFinishedNext(cores: Cores, values: seq<nat>, k: nat)
    requires |values| < |cores| && Quiescent(cores) && k < |cores| && IsComplete(cores[k]) && ReadFinished(values, k)
    ensures ReadFinished(values + [cores[|values|]], k)
  {
  }

  lemma ReadFinishedComplete(values: seq<nat>, k: nat)
    requires |values| == CORES && k < CORES && ReadFinished(values, k)
    ensures AllComplete(values)
  {
    AllCompleteIff(values);
  }

  /** A settled scan that passes the test shows a finished tile. */
  lemma SettledFinished(cores: Cores, values: seq<nat>)
    requires Settled(Scan(cores, values)) && |values| == |cores| == CORES && AllComplete(values)
    ensures Finished(cores)
  {
    SettledComplete(cores, values);
    AllCompleteIff(cores);
  }

  predicate AllPresent(present: seq<bool>) {
    forall i :: 0 <= i < |present| ==> present[i]
  }

  predicate NonePresent(present: seq<bool>) {
    forall i :: 0 <= i < |present| ==> !present[i]
  }

  class TileMonitor {
    /** Which of the five state symbols the image has. */
    const present: seq<bool>
    /** Which cores the image's programs start. */
    const starts: Starts
    var cores: Cores
    var inReset: bool
    /** What the cores are going to do before each coming access. */
    var script: seq<seq<(nat, nat)>>
    /** How often the words have been read. */
    ghost var rounds: nat

    ghost predicate Valid()
      reads this
    {
      |present| == CORES && |cores| == CORES
    }

    constructor (present: seq<bool>, starts: Starts, cores: Cores, script: seq<seq<(nat, nat)>>)
      requires |present| == CORES && |cores| == CORES
      ensures Valid() && this.present == present && this.starts == starts && this.cores == cores && !inReset
    {
      this.present, this.starts, this.cores, this.script, this.inReset := present, starts, cores, script, false;
      this.rounds := 0;
    }

    method LetCoresRun(ghost values: seq<nat>)
      requires Valid() && (Forward(starts) ==> Settled(Scan(cores, values)))
      modifies this`cores, this`script
      ensures Valid()
      ensures Forward(starts) ==> Settled(Scan(cores, values))
      ensures Finished(old(cores)) ==> Finished(cores)
      ensures forall k :: 0 <= k < CORES && IsComplete(old(cores)[k]) ==> IsComplete(cores[k])
    {
      hide Settled, Forward, Finished, TrySteps, IsComplete;
      if script != [] {
        if Forward(starts) {
          SettledBatch(cores, values, script[0], starts);
        }
        if Finished(cores) {
          FinishedBatch(cores, script[0], starts);
        }
        forall k | 0 <= k < CORES && IsComplete(cores[k])
          ensures IsComplete(TrySteps(cores, script[0], starts)[k])
        {
          CompleteBatch(cores, script[0], starts, k);
        }
        cores := TrySteps(cores, script[0], starts);
        script := script[1..];
      }
    }

    method ReadState(i: nat, ghost values: seq<nat>) returns (v: nat)
      requires Valid() && i < CORES && (Forward(starts) ==> Settled(Scan(cores, values)))
      modifies this`cores, this`script
      ensures Valid() && v == cores[i]
      ensures Forward(starts) ==> Settled(Scan(cores, values))
      ensures Finished(old(cores)) ==> Finished(cores)
      ensures forall k :: 0 <= k < CORES && IsComplete(old(cores)[k]) ==> IsComplete(cores[k])
    {
      hide Settled, Forward, Finished, IsComplete;
      LetCoresRun(values);
      v := cores[i];
    }

    /** Reads the words of the symbols that are present, then counts. A tile that was finished when
        the reads began passes; with no backward start only a finished tile passes. */
    method ReadAll() returns (complete: bool)
      requires Valid()
      modifies this
      ensures Valid() && inReset == old(inReset)
      ensures AllPresent(present) && Finished(old(cores)) ==> complete
      ensures complete && Forward(starts) && AllPresent(present) ==> Finished(cores)
      ensures NonePresent(present) ==> complete
      ensures complete ==> AllPresent(present) || NonePresent(present)
      ensures Finished(old(cores)) ==> Finished(cores)
      ensures rounds == old(rounds) + 1
    {
      hide Settled, Forward, CountComplete, CountNotStarted, Finished, IsComplete, ReadFinished;
      rounds := rounds + 1;
      var values: seq<nat> := [];
      ghost var scanned: seq<nat> := [];
      NothingSettled(cores);
      ghost var k := FinishedCore(cores);
      for i := 0 to CORES
        invariant Valid() && inReset == old(inReset) && rounds == old(rounds) + 1 && |values| <= i
        invariant values == [] <==> forall j :: 0 <= j < i ==> !present[j]
        invariant |values| == i <==> forall j :: 0 <= j < i ==> present[j]
        invariant |values| == i ==> scanned == values
        invariant |scanned| <= i && (Forward(starts) ==> Settled(Scan(cores, scanned)))
        invariant Finished(old(cores)) ==> Finished(cores) && IsComplete(cores[k]) && ReadFinished(scanned, k)
      {
        if present[i] {
          var v := ReadState(i, scanned);
          if |values| == i {
            if Forward(starts) {
              SettledRead(Scan(cores, scanned));
            }
            if Finished(cores) && Finished(old(cores)) {
              FinishedRests(cores);
              ReadFinishedNext(cores, scanned, k);
            }
            scanned := scanned + [v];
          }
          values := values + [v];
        }
      }
      complete := AllComplete(values);
      CountsPresent(values);
      if |values| == CORES && Finished(old(cores)) {
        ReadFinishedComplete(scanned, k);
      }
      if complete && |values| == CORES && Forward(starts) {
        SettledFinished(cores, scanned);
      }
    }

    /** Polls until the tile is complete, then puts it in reset; false when patience ran out. With all
        five symbols present, a tile that was finished when the wait began is put in reset, and with no
        core started from further down the list only a finished one is. */
    method Wait(patience: nat) returns (done: bool)
      requires Valid()
      modifies this
      ensures Valid()
      ensures inReset == (done || old(inReset))
      ensures AllPresent(present) && Finished(old(cores)) ==> done
      ensures done && Forward(starts) && AllPresent(present) ==> Finished(cores)
      ensures NonePresent(present) ==> done
      ensures done ==> AllPresent(present) || NonePresent(present)
      ensures rounds > old(rounds) && (!done ==> rounds == old(rounds) + patience + 1)
    {
      hide Finished, Settled, Forward, AllPresent, NonePresent, IsComplete;
      var left := patience;
      while true
        invariant Valid() && inReset == old(inReset)
        invariant Finished(old(cores)) ==> Finished(cores)
        invariant 0 <= left <= patience && rounds == old(rounds) + patience - left
        decreases left
      {
        var complete := ReadAll();
        if complete {
          NothingSettled(cores);
          LetCoresRun([]);
          inReset := true;
          return true;
        }
        if left == 0 {
          return false;
        }
        left := left - 1;
      }
    }
  }

  /** A finished core, of a tile that has one. */
  lemma FinishedCore(cores: Cores) returns (k: nat)
    requires |cores| == CORES
    ensures k < CORES && (Finished(cores) ==> IsComplete(cores[k]) && ReadFinished([], k))
  {
    if Finished(cores) {
      k :| 0 <= k < CORES && IsComplete(cores[k]);
    } else {
      k := 0;
    }
  }

  lemma FinishedRests(cores: Cores)
    requires Finished(cores)
    ensures Quiescent(cores)
  {
  }

  lemma CountsPresent(values: seq<nat>)
    requires |values| <= CORES
    ensures AllComplete(values) ==> values == [] || |values| == CORES
    ensures values == [] ==> AllComplete(values)
  {
    AllCompleteIff(values);
  }

  lemma NothingSettled(cores: Cores)
    ensures Settled(Scan(cores, []))
  {
  }
}
