/** The loader as code: soft resets, image loads, start polls and the whole of load_kernels over a
    chip whose running cores may change their memories before every host access. */
module Loader {
  import opened Coords
  import opened Bits
  import opened LoaderModel
  import opened LoaderSafety
  import opened LoaderOutcome
  import opened Wrappers

  /** The four little-endian bytes of a u32. */
  function WordBytes(v: nat): (r: seq<bv8>)
    ensures |r| == 4
  {
    LeBytes(v, 4)
  }

  /** They stand for the number, as a u32. */
  lemma WordBytesValue(v: nat)
    ensures Value(WordBytes(v)) == v % Pow2(32)
  {
    LeBytesValue(v, 4);
  }

  /** The word a read of a tile returns. */
  function WordAt(c: Chip, t: Coord, addr: nat): nat {
    if t in c.mem then MemWord(c.mem[t], addr) else 0
  }

  /** The symbols of an image that a start uses: the core's number, the sync word, and the state
      words of the cores that have one. */
  datatype Symbols = Symbols(coreId: Option<nat>, sync: nat, states: seq<nat>)

  // ------------------------------------------------------- what a start poll saw and did

  /** The tile's cores look started: a 3 in the sync word, or a state word that is not zero. */
  predicate LooksStarted(c: Chip, t: Coord, sym: Symbols) {
    WordAt(c, t, sym.sync) == 3 || exists i :: 0 <= i < |sym.states| && WordAt(c, t, sym.states[i]) != 0
  }

  /** At some access after the first `lo` ones the tile looked started. */
  predicate SawStarted(b: Board, initial: Chip, log: seq<Step>, lo: nat, t: Coord, sym: Symbols) {
    exists k :: lo < k <= |log| && LooksStarted(ExecAll(b, initial, log[..k]), t, sym)
  }

  /** The accesses from number `lo` on read the first `n` state words of the tile, one each, and
      found them zero. */
  predicate WordsZero(b: Board, initial: Chip, log: seq<Step>, lo: nat, n: nat, t: Coord, sym: Symbols)
    requires n <= |sym.states| && lo + n <= |log|
  {
    forall i: nat :: i < n ==> ZeroAt(b, initial, log, lo + i, t, sym.states[i])
  }

  /** Access `k` left the word at `addr` of the tile zero. */
  predicate ZeroAt(b: Board, initial: Chip, log: seq<Step>, k: nat, t: Coord, addr: nat)
    requires k < |log|
  {
    WordAt(ExecAll(b, initial, log[..k + 1]), t, addr) == 0
  }

  /** Since access `lo` a poll has found every state word zero, and the sync word, last of all, to be
      no 3. */
  predicate FoundWaiting(b: Board, initial: Chip, log: seq<Step>, lo: nat, t: Coord, sym: Symbols) {
    && WordAt(ExecAll(b, initial, log), t, sym.sync) != 3
    && exists m: nat :: lo <= m && m + |sym.states| < |log| && WordsZero(b, initial, log, m, |sym.states|, t, sym)
  }

  /** Access `k` gave tile number `i` its number, if the image has a place for it. */
  predicate Numbered(log: seq<Step>, k: nat, tiles: seq<Coord>, i: nat, sym: Symbols)
    requires i < |tiles|
  {
    sym.coreId.Some? ==> k < |log| && log[k].op == Poke(tiles[i], sym.coreId.value, WordBytes(i))
  }

  lemma WordsZeroStays(
    b: Board, initial: Chip, log: seq<Step>, log': seq<Step>, lo: nat, n: nat, t: Coord, sym: Symbols)
    requires n <= |sym.states| && lo + n <= |log| && log <= log'
    ensures WordsZero(b, initial, log', lo, n, t, sym) == WordsZero(b, initial, log, lo, n, t, sym)
  {
    hide WordAt, ExecAll;
    forall i: nat | i < n
      ensures ZeroAt(b, initial, log', lo + i, t, sym.states[i]) == ZeroAt(b, initial, log, lo + i, t, sym.states[i])
    {
      assert log'[..lo + i + 1] == log[..lo + i + 1];
    }
  }

  /** One more state word read. */
  lemma WordsZeroNext(b: Board, initial: Chip, log: seq<Step>, lo: nat, n: nat, t: Coord, sym: Symbols)
    requires n < |sym.states| && |log| == lo + n + 1
    ensures WordsZero(b, initial, log, lo, n + 1, t, sym)
            <==> WordsZero(b, initial, log, lo, n, t, sym) && WordAt(ExecAll(b, initial, log), t, sym.states[n]) == 0
  {
    hide WordAt, ExecAll;
    assert log[..lo + n + 1] == log;
    assert ZeroAt(b, initial, log, lo + n, t, sym.states[n])
           == (WordAt(ExecAll(b, initial, log), t, sym.states[n]) == 0);
    hide ZeroAt;
  }

  /** Since access `lo`, `n` polls one after the other have found the tile waiting, the last of them
      just now. */
  predicate WaitedOut(b: Board, initial: Chip, log: seq<Step>, lo: nat, n: nat, t: Coord, sym: Symbols)
    decreases n
  {
    n == 0 || exists m :: lo <= m <= |log| && FoundWaiting(b, initial, log, m, t, sym)
                          && WaitedOut(b, initial, log[..m], lo, n - 1, t, sym)
  }

  lemma WaitedOnce(
    b: Board, initial: Chip, before: seq<Step>, log: seq<Step>, lo: nat, n: nat, t: Coord, sym: Symbols)
    requires before <= log && lo <= |before| && WaitedOut(b, initial, before, lo, n, t, sym)
    requires FoundWaiting(b, initial, log, |before|, t, sym)
    ensures WaitedOut(b, initial, log, lo, n + 1, t, sym)
  {
    hide FoundWaiting;
    assert log[..|before|] == before;
  }

  lemma {:induction false} WaitedOutEarlier(
    b: Board, initial: Chip, log: seq<Step>, lo: nat, lo': nat, n: nat, t: Coord, sym: Symbols)
    requires WaitedOut(b, initial, log, lo, n, t, sym) && lo' <= lo
    ensures WaitedOut(b, initial, log, lo', n, t, sym)
    decreases n
  {
    hide FoundWaiting;
    if n > 0 {
      var m :| lo <= m <= |log| && FoundWaiting(b, initial, log, m, t, sym)
               && WaitedOut(b, initial, log[..m], lo, n - 1, t, sym);
      WaitedOutEarlier(b, initial, log[..m], lo, lo', n - 1, t, sym);
    }
  }

  lemma NumberedStays(log: seq<Step>, log': seq<Step>, k: nat, tiles: seq<Coord>, i: nat, sym: Symbols)
    requires i < |tiles| && Numbered(log, k, tiles, i, sym) && log <= log'
    ensures Numbered(log', k, tiles, i, sym)
  {
    hide WordBytes;
  }

  /** Since access `lo` tile number `i` was given its number, and then seen started. */
  predicate Started(b: Board, initial: Chip, log: seq<Step>, lo: nat, tiles: seq<Coord>, i: nat, sym: Symbols)
    requires i < |tiles|
  {
    exists k :: lo <= k <= |log| && Numbered(log, k, tiles, i, sym) && SawStarted(b, initial, log, k, tiles[i], sym)
  }

  lemma StartedNow(
    b: Board, initial: Chip, log: seq<Step>, k: nat, lo: nat, tiles: seq<Coord>, i: nat, sym: Symbols)
    requires i < |tiles| && lo <= k <= |log|
    requires SawStarted(b, initial, log, k, tiles[i], sym) && Numbered(log, k, tiles, i, sym)
    ensures Started(b, initial, log, lo, tiles, i, sym)
  {
    hide SawStarted, Numbered;
  }

  lemma StartedStays(
    b: Board, initial: Chip, log: seq<Step>, log': seq<Step>, lo: nat, lo': nat, tiles: seq<Coord>,
    i: nat, sym: Symbols)
    requires i < |tiles| && Started(b, initial, log, lo, tiles, i, sym) && log <= log' && lo' <= lo
    ensures Started(b, initial, log', lo', tiles, i, sym)
  {
    hide SawStarted, Numbered;
    var k :| lo <= k <= |log| && Numbered(log, k, tiles, i, sym) && SawStarted(b, initial, log, k, tiles[i], sym);
    SawStartedStays(b, initial, log, log', k, k, tiles[i], sym);
    NumberedStays(log, log', k, tiles, i, sym);
  }

  lemma StartedWasSeen(b: Board, initial: Chip, log: seq<Step>, lo: nat, tiles: seq<Coord>, i: nat, sym: Symbols)
    requires i < |tiles| && Started(b, initial, log, lo, tiles, i, sym)
    ensures SawStarted(b, initial, log, lo, tiles[i], sym)
  {
    hide SawStarted, Numbered;
    var k :| lo <= k <= |log| && Numbered(log, k, tiles, i, sym) && SawStarted(b, initial, log, k, tiles[i], sym);
    SawStartedStays(b, initial, log, log, k, lo, tiles[i], sym);
  }

  /** Access `k` of a log, if it is a small write, gives tile number `i` of the list its number, or
      releases a tile: writes 2 where the access before read a 1. */
  predicate PokeIsDue(b: Board, initial: Chip, log: seq<Step>, k: nat, tiles: seq<Coord>, sym: Symbols)
    requires k < |log|
  {
    log[k].op.Poke? ==>
      var op := log[k].op;
      || (exists i :: 0 <= i < |tiles| && sym.coreId.Some? && op == Poke(tiles[i], sym.coreId.value, WordBytes(i)))
      || (op == Poke(op.tile, sym.sync, WordBytes(2)) && op.tile in tiles
          && k > 0 && log[k - 1].op == Look(op.tile) && WordAt(ExecAll(b, initial, log[..k]), op.tile, sym.sync) == 1)
  }

  /** All accesses from number `lo` on are in order. */
  predicate PokesAreDue(b: Board, initial: Chip, log: seq<Step>, lo: nat, tiles: seq<Coord>, sym: Symbols) {
    forall k :: lo <= k < |log| ==> PokeIsDue(b, initial, log, k, tiles, sym)
  }

  lemma SawStartedStays(
    b: Board, initial: Chip, log: seq<Step>, log': seq<Step>, lo: nat, lo': nat, t: Coord, sym: Symbols)
    requires SawStarted(b, initial, log, lo, t, sym) && log <= log' && lo' <= lo
    ensures SawStarted(b, initial, log', lo', t, sym)
  {
    hide LooksStarted, ExecAll;
    var k :| lo < k <= |log| && LooksStarted(ExecAll(b, initial, log[..k]), t, sym);
    assert log'[..k] == log[..k];
  }

  lemma DueStays(b: Board, initial: Chip, log: seq<Step>, log': seq<Step>, k: nat, tiles: seq<Coord>, sym: Symbols)
    requires k < |log| && log <= log' && PokeIsDue(b, initial, log, k, tiles, sym)
    ensures PokeIsDue(b, initial, log', k, tiles, sym)
  {
    hide ExecAll, WordAt, WordBytes;
    assert log'[..k] == log[..k];
  }

  /** Appending one access that is in order keeps a log in order. */
  lemma DueGrows(
    b: Board, initial: Chip, log: seq<Step>, log': seq<Step>, lo: nat, tiles: seq<Coord>, sym: Symbols)
    requires PokesAreDue(b, initial, log, lo, tiles, sym) && log <= log' && |log'| == |log| + 1
    requires PokeIsDue(b, initial, log', |log|, tiles, sym)
    ensures PokesAreDue(b, initial, log', lo, tiles, sym)
  {
    hide PokeIsDue;
    forall k | lo <= k < |log'|
      ensures PokeIsDue(b, initial, log', k, tiles, sym)
    {
      if k < |log| {
        DueStays(b, initial, log, log', k, tiles, sym);
      }
    }
  }

  lemma NoPokesAreDue(
    b: Board, initial: Chip, log: seq<Step>, log': seq<Step>, lo: nat, tiles: seq<Coord>, sym: Symbols)
    requires lo <= |log| && PokesAreDue(b, initial, log, lo, tiles, sym) && log <= log'
    requires forall k :: |log| <= k < |log'| ==> !log'[k].op.Poke?
    ensures PokesAreDue(b, initial, log', lo, tiles, sym)
  {
    hide ExecAll, WordAt, WordBytes;
    forall k | lo <= k < |log'|
      ensures PokeIsDue(b, initial, log', k, tiles, sym)
    {
      if k < |log| {
        DueStays(b, initial, log, log', k, tiles, sym);
      }
    }
  }

  lemma LastOp(before: seq<Step>, after: seq<Step>, op: Op)
    requires before <= after && Ops(after) == Ops(before) + [op]
    ensures |after| == |before| + 1 && after[|before|].op == op
  {
    assert Ops(after)[|before|] == after[|before|].op;
  }

  /** Where the start polls of a call begin that found `lo` accesses. */
  function PollsFrom(lo: nat, tiles: Option<seq<Coord>>, image: seq<Segment>): nat {
    lo + |Preparation(tiles, image)| + |StartOps(tiles)|
  }

  // ------------------------------------------------------- outcomes

  /** Every target tile is in reset and the chip is idle. */
  predicate WoundDown(b: Board, c: Chip, tiles: Option<seq<Coord>>) {
    && !c.busy
    && forall i :: 0 <= i < |Targets(b, tiles)| ==>
         var t := Targets(b, tiles)[i]; t in c.mem && InReset(c.mem[t])
  }

  /** Every tile that a stop of these tiles reaches is in reset. */
  predicate AllStopped(b: Board, c: Chip, tiles: Option<seq<Coord>>) {
    forall t :: t in c.mem && StopReaches(b, tiles, t) ==> InReset(c.mem[t])
  }

  class ChipDevice {
    const board: Board
    ghost const initial: Chip
    var c: Chip
    /** Every host access so far, with what the cores did before it. */
    var log: seq<Step>
    /** What the cores are going to do before each coming host access. */
    var script: seq<map<Coord, Memory>>

    ghost predicate Valid()
      reads this
    {
      c == ExecAll(board, initial, log)
    }

    constructor (board: Board, c: Chip, script: seq<map<Coord, Memory>>)
      ensures Valid() && this.board == board && this.c == initial == c && log == [] && this.script == script
    {
      this.board, this.initial, this.c, this.log, this.script := board, c, c, [], script;
    }

    /** One access; `mid` is the chip that it finds. */
    method Write(op: Op) returns (ghost mid: Chip)
      requires Valid()
      modifies this
      ensures Valid() && old(log) <= log && Ops(log) == Ops(old(log)) + [op] && |log| == |old(log)| + 1
      ensures mid.mem.Keys == old(c).mem.Keys && mid.busy == old(c).busy && c == Exec(board, mid, op)
    {
      hide Exec;
      var changes: map<Coord, Memory> := map[];
      if script != [] {
        changes, script := script[0], script[1..];
      }
      ExecAppend(board, initial, log, [Step(changes, op)]);
      LastStep(board, c, Step(changes, op));
      mid := Drift(c, changes);
      c := Exec(board, Drift(c, changes), op);
      log := log + [Step(changes, op)];
    }

    /** Leaves the tile in reset. */
    method Stop(tile: Coord)
      requires Valid()
      modifies this
      ensures Valid() && old(log) <= log && Ops(log) == Ops(old(log)) + [SetReset(tile, STOP)]
      ensures c.mem.Keys == old(c).mem.Keys
      ensures tile in c.mem ==> InReset(c.mem[tile])
    {
      hide Exec, ExecAll, Ops, InReset;
      var mid := Write(SetReset(tile, STOP));
      if tile in mid.mem {
        SingleStop(board, tile);
        StopWorks(board, mid, SetReset(tile, STOP), tile);
      }
    }

    /** Leaves the chip idle and every tile in reset that the broadcast reaches. */
    method StopAll()
      requires Valid()
      modifies this
      ensures Valid() && old(log) <= log && Ops(log) == Ops(old(log)) + [Power(false), SetResetAll(STOP)]
      ensures c.mem.Keys == old(c).mem.Keys && !c.busy
      ensures forall t :: t in c.mem && board.Reached(Noc0, t) ==> InReset(c.mem[t])
    {
      hide Exec, ExecAll, Ops, InReset, Board.Reached;
      var idle := Write(Power(false));
      GoesIdle(board, idle);
      var mid := Write(SetResetAll(STOP));
      forall t | t in mid.mem && board.Reached(Noc0, t)
        ensures InReset(c.mem[t])
      {
        StopWorks(board, mid, SetResetAll(STOP), t);
      }
      StopKeepsPower(board, mid);
    }

    /** Takes the tile out of reset, whatever the options. */
    method StartTile(tile: Coord, keepTriscs: bool, stagger: bool)
      requires Valid()
      modifies this
      ensures Valid() && old(log) <= log && Ops(log) == Ops(old(log)) + [SetReset(tile, Start(keepTriscs, stagger))]
      ensures c.mem.Keys == old(c).mem.Keys
      ensures tile in c.mem ==> !InReset(c.mem[tile])
    {
      hide ExecAll, Ops, InReset, WriteMem, Start;
      var mid := Write(SetReset(tile, Start(keepTriscs, stagger)));
      if tile in mid.mem {
        StartReleases(mid.mem[tile], keepTriscs, stagger);
      }
    }

    /** Takes every tile out of reset that the broadcast reaches, whatever the options. */
    method StartAll(keepTriscs: bool, stagger: bool)
      requires Valid()
      modifies this
      ensures Valid() && old(log) <= log && Ops(log) == Ops(old(log)) + [SetResetAll(Start(keepTriscs, stagger))]
      ensures c.mem.Keys == old(c).mem.Keys
      ensures forall t :: t in c.mem && board.Reached(Noc0, t) ==> !InReset(c.mem[t])
    {
      hide ExecAll, Ops, InReset, WriteMem, Start, Board.Reached;
      var mid := Write(SetResetAll(Start(keepTriscs, stagger)));
      forall t | t in mid.mem && board.Reached(Noc0, t)
        ensures !InReset(c.mem[t])
      {
        StartReleases(mid.mem[t], keepTriscs, stagger);
      }
    }

    /** Loads an image to one tile. */
    method KernelLoad(image: seq<Segment>, tile: Coord)
      requires Valid()
      modifies this
      ensures Valid() && old(log) <= log && Ops(log) == Ops(old(log)) + TileLoads(tile, image)
    {
      hide Exec, ExecAll, Ops;
      for i := 0 to |image|
        invariant Valid() && old(log) <= log && Ops(log) == Ops(old(log)) + TileLoads(tile, image)[..i]
      {
        var _ := Write(Load(tile, image[i]));
      }
    }

    /** Loads an image to all tensix tiles by broadcast on a network. */
    method KernelLoadAll(noc: NocId, image: seq<Segment>)
      requires Valid()
      modifies this
      ensures Valid() && old(log) <= log && Ops(log) == Ops(old(log)) + BroadcastLoads(noc, image)
    {
      hide Exec, ExecAll, Ops;
      for i := 0 to |image|
        invariant Valid() && old(log) <= log && Ops(log) == Ops(old(log)) + BroadcastLoads(noc, image)[..i]
      {
        var _ := Write(LoadAll(noc, image[i]));
      }
    }

    method StopTiles(tiles: Option<seq<Coord>>)
      requires Valid()
      modifies this
      ensures Valid() && old(log) <= log && Ops(log) == Ops(old(log)) + StopOps(tiles)
    {
      hide Exec, ExecAll, Ops;
      if tiles.Some? {
        for i := 0 to |tiles.value|
          invariant Valid() && old(log) <= log && Ops(log) == Ops(old(log)) + EachTile(tiles.value, STOP)[..i]
        {
          Stop(tiles.value[i]);
        }
      } else {
        StopAll();
      }
    }

    method LoadTiles(tiles: Option<seq<Coord>>, image: seq<Segment>)
      requires Valid()
      modifies this
      ensures Valid() && old(log) <= log && Ops(log) == Ops(old(log)) + LoadOps(tiles, image)
    {
      hide Exec, ExecAll, Ops, TileLoads;
      if tiles.Some? {
        for i := 0 to |tiles.value|
          invariant Valid() && old(log) <= log
          invariant Ops(log) + ListLoads(tiles.value[i..], image) == Ops(old(log)) + ListLoads(tiles.value, image)
        {
          ghost var before := Ops(log);
          assert tiles.value[i..][1..] == tiles.value[i + 1..];
          KernelLoad(image, tiles.value[i]);
          assert before + ListLoads(tiles.value[i..], image) == Ops(log) + ListLoads(tiles.value[i + 1..], image);
        }
      } else {
        KernelLoadAll(Noc1, image);
      }
    }

    method StartTiles(tiles: Option<seq<Coord>>)
      requires Valid()
      modifies this
      ensures Valid() && old(log) <= log && Ops(log) == Ops(old(log)) + StartOps(tiles)
    {
      hide Exec, ExecAll, Ops, Start;
      if tiles.Some? {
        for i := 0 to |tiles.value|
          invariant Valid() && old(log) <= log
          invariant Ops(log) == Ops(old(log)) + EachTile(tiles.value, Start(true, true))[..i]
        {
          StartTile(tiles.value[i], true, true);
        }
      } else {
        StartAll(true, true);
      }
    }

    // ------------------------------------------------------- waiting for the start

    /** The accesses since number `lo` are small ones, and in order. */
    ghost predicate Polling(lo: nat, tiles: seq<Coord>, sym: Symbols)
      reads this
    {
      && Valid() && lo <= |log| && OnlyPokes(Ops(log)[lo..])
      && PokesAreDue(board, initial, log, lo, tiles, sym)
    }

    /** Reads a word of a tile. */
    method Read32(t: Coord, addr: nat, ghost lo: nat, ghost tiles: seq<Coord>, ghost sym: Symbols) returns (value: nat)
      requires Polling(lo, tiles, sym)
      modifies this
      ensures Polling(lo, tiles, sym) && old(log) <= log && Ops(log) == Ops(old(log)) + [Look(t)]
      ensures |log| == |old(log)| + 1
      ensures value == WordAt(c, t, addr)
    {
      hide Exec, ExecAll, Ops, WordAt, PokesAreDue;
      var _ := Write(Look(t));
      LastOp(old(log), log, Look(t));
      NoPokesAreDue(board, initial, old(log), log, lo, tiles, sym);
      PokesGrow(Ops(old(log)), Look(t), lo);
      value := WordAt(c, t, addr);
    }

    method Poke32(t: Coord, addr: nat, data: seq<bv8>, ghost lo: nat, ghost tiles: seq<Coord>, ghost sym: Symbols)
      requires Polling(lo, tiles, sym)
      requires || (exists i :: 0 <= i < |tiles| && sym.coreId.Some?
                               && Poke(t, addr, data) == Poke(tiles[i], sym.coreId.value, WordBytes(i)))
               || (addr == sym.sync && data == WordBytes(2) && t in tiles && log != [] && log[|log| - 1].op == Look(t)
                   && WordAt(c, t, sym.sync) == 1)
      modifies this
      ensures Polling(lo, tiles, sym) && old(log) <= log && Ops(log) == Ops(old(log)) + [Poke(t, addr, data)]
      ensures |log| == |old(log)| + 1 && log[|old(log)|].op == Poke(t, addr, data)
    {
      hide Exec, ExecAll, Ops, WordAt, WordBytes, PokesAreDue;
      ghost var before := log;
      var _ := Write(Poke(t, addr, data));
      LastOp(before, log, Poke(t, addr, data));
      assert log[..|before|] == before;
      DueGrows(board, initial, before, log, lo, tiles, sym);
      PokesGrow(Ops(before), Poke(t, addr, data), lo);
    }

    /** One start poll of a tile. It reads the state words, one each; if one is not zero it ends
        there and answers true. Otherwise it reads the sync word, answers a 1 with a 2 and reads it
        once more, and answers whether the last word read is 3. */
    method StartSync(t: Coord, ghost lo: nat, ghost tiles: seq<Coord>, sym: Symbols) returns (started: bool)
      requires Polling(lo, tiles, sym) && t in tiles
      modifies this
      ensures Polling(lo, tiles, sym) && old(log) <= log
      ensures started ==> SawStarted(board, initial, log, |old(log)|, t, sym)
      ensures var n := |old(log)| + |sym.states|;
              && n <= |log|
              && var quiet := WordsZero(board, initial, log, |old(log)|, |sym.states|, t, sym);
              && (!quiet ==> started && |log| == n)
              && (quiet ==>
                    && n < |log| && started == (WordAt(c, t, sym.sync) == 3)
                    && (if WordAt(ExecAll(board, initial, log[..n + 1]), t, sym.sync) == 1
                        then |log| == n + 3 && log[n + 1].op == Poke(t, sym.sync, WordBytes(2))
                        else |log| == n + 1))
    {
      hide Exec, ExecAll, Ops, WordAt, WordBytes, PokesAreDue, OnlyPokes, SawStarted, WordsZero;
      var quiet := ScanStates(t, lo, tiles, sym);
      if !quiet {
        return true;
      }
      ghost var scanned := log;
      ghost var before := log;
      var value := Read32(t, sym.sync, lo, tiles, sym);
      ghost var first := log;
      assert first[..|scanned| + 1] == first;
      if value == 1 {
        LastOp(before, log, Look(t));
        Poke32(t, sym.sync, WordBytes(2), lo, tiles, sym);
        before := log;
        value := Read32(t, sym.sync, lo, tiles, sym);
      }
      assert log[..|scanned| + 1] == first;
      if value == 3 {
        LooksStartedNow(board, initial, before, log, t, sym);
        SawStartedStays(board, initial, log, log, |before|, |old(log)|, t, sym);
      }
      WordsZeroStays(board, initial, scanned, log, |old(log)|, |sym.states|, t, sym);
      return value == 3;
    }

    /** Reads every state word, one access each: true exactly when all of them were zero. */
    method ScanStates(t: Coord, ghost lo: nat, ghost tiles: seq<Coord>, sym: Symbols) returns (quiet: bool)
      requires Polling(lo, tiles, sym) && t in tiles
      modifies this
      ensures Polling(lo, tiles, sym) && old(log) <= log && |log| == |old(log)| + |sym.states|
      ensures !quiet ==> SawStarted(board, initial, log, |old(log)|, t, sym)
      ensures quiet == WordsZero(board, initial, log, |old(log)|, |sym.states|, t, sym)
    {
      hide Exec, ExecAll, Ops, WordAt, WordBytes, PokesAreDue, OnlyPokes, SawStarted;
      quiet := true;
      for i := 0 to |sym.states|
        invariant Polling(lo, tiles, sym) && old(log) <= log && |log| == |old(log)| + i
        invariant !quiet ==> SawStarted(board, initial, log, |old(log)|, t, sym)
        invariant quiet == WordsZero(board, initial, log, |old(log)|, i, t, sym)
      {
        hide WordsZero;
        ghost var before := log;
        var value := Read32(t, sym.states[i], lo, tiles, sym);
        WordsZeroStays(board, initial, before, log, |old(log)|, i, t, sym);
        WordsZeroNext(board, initial, log, |old(log)|, i, t, sym);
        if value != 0 {
          quiet := false;
          LooksStartedNow(board, initial, before, log, t, sym);
          SawStartedStays(board, initial, log, log, |before|, |old(log)|, t, sym);
        } else if !quiet {
          SawStartedStays(board, initial, before, log, |old(log)|, |old(log)|, t, sym);
        }
      }
    }

    /** Gives tile number `i` its number and polls it until it has started; false when patience ran
        out, with every one of the polls finding the tile waiting. */
    method AwaitTile(i: nat, ghost lo: nat, tiles: seq<Coord>, sym: Symbols, patience: nat) returns (started: bool)
      requires Polling(lo, tiles, sym) && i < |tiles|
      modifies this
      ensures Polling(lo, tiles, sym) && old(log) <= log
      ensures Numbered(log, |old(log)|, tiles, i, sym)
      ensures started ==> SawStarted(board, initial, log, |old(log)|, tiles[i], sym)
      ensures !started ==> WaitedOut(board, initial, log, |old(log)|, patience + 1, tiles[i], sym)
    {
      hide Exec, ExecAll, Ops, WordAt, WordBytes, PokesAreDue, OnlyPokes, SawStarted, WordsZero;
      if sym.coreId.Some? {
        Poke32(tiles[i], sym.coreId.value, WordBytes(i), lo, tiles, sym);
        LastOp(old(log), log, Poke(tiles[i], sym.coreId.value, WordBytes(i)));
      }
      hide Numbered;
      var left := patience;
      while true
        invariant Polling(lo, tiles, sym) && old(log) <= log
        invariant Numbered(log, |old(log)|, tiles, i, sym)
        invariant 0 <= left <= patience
        invariant WaitedOut(board, initial, log, |old(log)|, patience - left, tiles[i], sym)
        decreases left
      {
        hide WaitedOut;
        ghost var before := log;
        started := StartSync(tiles[i], lo, tiles, sym);
        NumberedStays(before, log, |old(log)|, tiles, i, sym);
        if started {
          SawStartedStays(board, initial, log, log, |before|, |old(log)|, tiles[i], sym);
          return true;
        }
        assert FoundWaiting(board, initial, log, |before|, tiles[i], sym);
        WaitedOnce(board, initial, before, log, |old(log)|, patience - left, tiles[i], sym);
        if left == 0 {
          return false;
        }
        left := left - 1;
      }
    }

    /** Waits for every tile to start, one after the other. */
    method AwaitStart(tiles: seq<Coord>, sym: Symbols, patience: nat) returns (started: bool)
      requires Valid()
      modifies this
      ensures Polling(|old(log)|, tiles, sym) && old(log) <= log
      ensures started ==> forall i :: 0 <= i < |tiles| ==> Started(board, initial, log, |old(log)|, tiles, i, sym)
      ensures !started ==>
        exists i :: 0 <= i < |tiles| && WaitedOut(board, initial, log, |old(log)|, patience + 1, tiles[i], sym)
    {
      hide Exec, ExecAll, Ops, WordAt, WordBytes, SawStarted, Numbered, Started, FoundWaiting, WaitedOut;
      ghost var lo := |log|;
      assert Ops(log)[lo..] == [];
      for i := 0 to |tiles|
        invariant Polling(lo, tiles, sym) && old(log) <= log
        invariant forall j :: 0 <= j < i ==> Started(board, initial, log, lo, tiles, j, sym)
      {
        ghost var before := log;
        started := AwaitTile(i, lo, tiles, sym, patience);
        if !started {
          WaitedOutEarlier(board, initial, log, |before|, lo, patience + 1, tiles[i], sym);
          return false;
        }
        StartedNow(board, initial, log, |before|, lo, tiles, i, sym);
        forall j | 0 <= j < i
          ensures Started(board, initial, log, lo, tiles, j, sym)
        {
          StartedStays(board, initial, before, log, lo, lo, tiles, j, sym);
        }
      }
      return true;
    }

    // ------------------------------------------------------- whole calls

    /** Goes idle and stops: leaves the chip idle and every tile stopped that a stop reaches. */
    method StopTile(tiles: Option<seq<Coord>>)
      requires Valid()
      modifies this
      ensures Valid() && old(log) <= log && Ops(log) == Ops(old(log)) + [Power(false)] + StopOps(tiles)
      ensures !c.busy && AllStopped(board, c, tiles)
    {
      hide Exec, ExecAll, Ops, StopOps, AllStopped;
      var idle := Write(Power(false));
      GoesIdle(board, idle);
      ghost var before := log;
      StopTiles(tiles);
      StopsEnd(board, initial, before, log, tiles);
    }

    /** Stops the tiles, wakes the chip and loads the image. */
    method Prepare(tiles: Option<seq<Coord>>, image: seq<Segment>)
      requires Valid()
      modifies this
      ensures Valid() && old(log) <= log && Ops(log) == Ops(old(log)) + Preparation(tiles, image)
    {
      hide Exec, ExecAll, Ops, StopOps, LoadOps;
      StopTiles(tiles);
      var _ := Write(DeassertRiscvReset);
      var _ := Write(Power(true));
      LoadTiles(tiles, image);
    }

    /** Stops each tile as it completes, then winds the chip down. */
    method FinishTiles(tiles: Option<seq<Coord>>)
      requires Valid()
      modifies this
      ensures Valid() && old(log) <= log && Ops(log) == Ops(old(log)) + WindDown(board, tiles)
    {
      hide Exec, ExecAll, Ops, StopOps, Targets, AllStopped;
      var allTiles := Targets(board, tiles);
      for i := 0 to |allTiles|
        invariant Valid() && old(log) <= log && Ops(log) == Ops(old(log)) + EachTile(allTiles, STOP)[..i]
      {
        Stop(allTiles[i]);
      }
      StopTile(tiles);
    }

    /** Stops, loads, starts, waits for the start where the image has a sync word, and with `wait`
        waits for completion and winds down. Its accesses are exactly those of the load plan with
        the start polls `pokes`; a poll that runs out of patience ends the call early. */
    method LoadKernels(
      image: seq<Segment>, tiles: Option<seq<Coord>>, sym: Option<Symbols>, wait: bool, patience: nat)
      returns (started: bool, ghost pokes: seq<Op>)
      requires Valid()
      modifies this
      ensures Valid() && old(log) <= log && OnlyPokes(pokes)
      ensures Ops(log) == Ops(old(log)) + LoadPlan(board, tiles, image, pokes, wait && started)
      ensures sym.None? ==> started && pokes == []
      ensures sym.Some? ==> PokesAreDue(board, initial, log, |old(log)|, Targets(board, tiles), sym.value)
      ensures started && sym.Some? ==>
        forall i :: 0 <= i < |Targets(board, tiles)| ==>
          Started(board, initial, log, PollsFrom(|old(log)|, tiles, image), Targets(board, tiles), i, sym.value)
      ensures !started ==> sym.Some?
      ensures !started ==>
        exists i :: 0 <= i < |Targets(board, tiles)|
          && WaitedOut(board, initial, log, PollsFrom(|old(log)|, tiles, image), patience + 1,
                       Targets(board, tiles)[i], sym.value)
      ensures forall t :: t in c.mem && StopReaches(board, tiles, t) ==> Launched(board, initial, log, |old(log)|, t)
      ensures Call(board, old(c), tiles, image) ==>
        forall i :: 0 <= i < |Targets(board, tiles)| ==>
          ImageReady(board, initial, log, |old(log)|, image, Targets(board, tiles)[i])
      ensures IdlesHeld(board, initial, log, |old(log)|, Targets(board, tiles))
      ensures started && wait && Call(board, old(c), tiles, image) ==> WoundDown(board, c, tiles)
    {
      hide Exec, ExecAll, Ops, StartOps, Preparation, WindDown, Targets, WoundDown, Call, Started, PokesAreDue;
      hide FoundWaiting, WaitedOut, Launched, ImageReady, StopReaches, IsCall, IdlesHeld;
      Prepare(tiles, image);
      StartTiles(tiles);
      ghost var ready := log;
      PlanPhases(Ops(old(log)), Preparation(tiles, image), StartOps(tiles));
      var allTiles := Targets(board, tiles);
      started, pokes := true, [];
      if sym.Some? {
        started := AwaitStart(allTiles, sym.value, patience);
        pokes := Ops(log)[|ready|..];
        OpsPrefix(ready, log);
      }
      ghost var polled := log;
      if wait && started {
        FinishTiles(tiles);
      }
      ghost var down := if wait && started then WindDown(board, tiles) else [];
      PlanInPhases(Ops(old(log)), Preparation(tiles, image), StartOps(tiles), pokes, down);
      CallEnds(board, initial, old(log), log, tiles, image, pokes, wait && started);
      CallOutcome(board, initial, old(log), log, tiles, image, pokes, wait && started);
      if sym.Some? {
        CallInOrder(board, initial, old(log), ready, polled, log, tiles, image, sym.value, down);
        if started {
          forall i | 0 <= i < |allTiles|
            ensures Started(board, initial, log, |ready|, allTiles, i, sym.value)
          {
            StartedStays(board, initial, polled, log, |ready|, |ready|, allTiles, i, sym.value);
          }
        }
      }
    }

    /** The single-tile path: no tile numbers, and no power change at the end. */
    method QuickLoad(image: seq<Segment>, tile: Coord, sync: Option<nat>, states: seq<nat>, wait: bool, patience: nat)
      returns (started: bool, ghost pokes: seq<Op>)
      requires Valid()
      modifies this
      ensures Valid() && old(log) <= log && OnlyPokes(pokes)
      ensures Ops(log) == Ops(old(log)) + QuickPlan(tile, image, pokes, wait && started)
      ensures started && sync.Some? ==>
        SawStarted(board, initial, log, |old(log)|, tile, Symbols(None, sync.value, states))
      ensures !started ==> sync.Some?
      ensures !started ==>
        WaitedOut(board, initial, log, |old(log)|, patience + 1, tile, Symbols(None, sync.value, states))
      ensures tile in c.mem ==> Launched(board, initial, log, |old(log)|, tile)
      ensures started && wait && tile in old(c).mem ==> tile in c.mem && InReset(c.mem[tile]) && c.busy
    {
      hide Exec, ExecAll, Ops, StartOps, Preparation, InReset, QuickPlan, SawStarted, PokesAreDue;
      hide FoundWaiting, WaitedOut, Launched;
      Prepare(Some([tile]), image);
      StartTiles(Some([tile]));
      ghost var ready := log;
      started, pokes := true, [];
      if sync.Some? {
        started := AwaitStart([tile], Symbols(None, sync.value, states), patience);
        pokes := Ops(log)[|ready|..];
        OpsPrefix(ready, log);
        if started {
          StartedWasSeen(board, initial, log, |ready|, [tile], 0, Symbols(None, sync.value, states));
        } else {
          WaitedOutEarlier(
            board, initial, log, |ready|, |old(log)|, patience + 1, tile, Symbols(None, sync.value, states));
        }
      }
      ghost var polled := log;
      if wait && started {
        Stop(tile);
      }
      if started && sync.Some? {
        SawStartedStays(board, initial, polled, log, |ready|, |old(log)|, tile, Symbols(None, sync.value, states));
      }
      QuickPhases(Ops(old(log)), tile, image, pokes, wait && started);
      QuickCallEnds(board, initial, old(log), log, tile, image, pokes, wait && started);
      if tile in c.mem {
        QuickCallLaunches(board, initial, old(log), log, tile, image, pokes, wait && started);
      }
    }
  }

  // ------------------------------------------------------- steps of the proofs

  lemma GoesIdle(b: Board, mid: Chip)
    ensures !Exec(b, mid, Power(false)).busy
  {
  }

  lemma StopKeepsPower(b: Board, mid: Chip)
    ensures Exec(b, mid, SetResetAll(STOP)).busy == mid.busy
  {
  }

  lemma PokesGrow(ops: seq<Op>, op: Op, lo: nat)
    requires lo <= |ops| && OnlyPokes(ops[lo..]) && (op.Poke? || op.Look?)
    ensures OnlyPokes((ops + [op])[lo..])
  {
    assert (ops + [op])[lo..] == ops[lo..] + [op];
  }

  lemma LooksStartedNow(b: Board, initial: Chip, before: seq<Step>, log: seq<Step>, t: Coord, sym: Symbols)
    requires before <= log && |before| < |log| && LooksStarted(ExecAll(b, initial, log), t, sym)
    ensures SawStarted(b, initial, log, |before|, t, sym)
  {
    hide LooksStarted, ExecAll;
    assert log[..|log|] == log;
  }

  lemma OpsPrefix(before: seq<Step>, after: seq<Step>)
    requires before <= after
    ensures Ops(after) == Ops(before) + Ops(after)[|before|..]
  {
  }

  /** A stop phase of an idle chip leaves it idle and its tiles stopped. */
  lemma StopsEnd(b: Board, initial: Chip, before: seq<Step>, after: seq<Step>, tiles: Option<seq<Coord>>)
    requires before <= after && Ops(after) == Ops(before) + StopOps(tiles) && !ExecAll(b, initial, before).busy
    ensures !ExecAll(b, initial, after).busy && AllStopped(b, ExecAll(b, initial, after), tiles)
  {
    hide InReset, ExecAll, StopOps, StopReaches, Harmless;
    var c, steps := ExecAll(b, initial, before), after[|before|..];
    assert before + steps == after && after[|before|..|after|] == steps;
    ExecAppend(b, initial, before, steps);
    OpsSlice(after, |before|, |after|);
    assert Ops(steps) == StopOps(tiles);
    forall i | 0 <= i < |steps|
      ensures steps[i].op != Power(true)
    {
      assert steps[i].op == Ops(steps)[i];
      StopIsNoPowerUp(tiles, i);
    }
    NeverBusy(b, c, steps);
    forall t | t in ExecAll(b, c, steps).mem && StopReaches(b, tiles, t)
      ensures InReset(ExecAll(b, c, steps).mem[t])
    {
      StopPhaseEnds(b, c, tiles, steps, t);
    }
  }

  lemma StopIsNoPowerUp(tiles: Option<seq<Coord>>, i: nat)
    requires i < |StopOps(tiles)|
    ensures StopOps(tiles)[i] != Power(true)
  {
  }

  predicate NoPokes(ops: seq<Op>) {
    forall i :: 0 <= i < |ops| ==> !ops[i].Poke?
  }

  lemma OtherPhases(b: Board, tiles: Option<seq<Coord>>, image: seq<Segment>)
    ensures NoPokes(Preparation(tiles, image)) && NoPokes(StartOps(tiles)) && NoPokes(WindDown(b, tiles))
  {
    hide LoadOps, Targets;
    forall i | 0 <= i < |LoadOps(tiles, image)|
      ensures !LoadOps(tiles, image)[i].Poke?
    {
      LoadOpsAre(tiles, image, i);
    }
  }

  /** The small writes of a whole call are those of its start polls, so they are in order. */
  lemma CallInOrder(
    b: Board, initial: Chip, start: seq<Step>, ready: seq<Step>, polled: seq<Step>, end: seq<Step>,
    tiles: Option<seq<Coord>>, image: seq<Segment>, sym: Symbols, down: seq<Op>)
    requires start <= ready <= polled <= end
    requires Ops(ready) == Ops(start) + (Preparation(tiles, image) + StartOps(tiles))
    requires PokesAreDue(b, initial, polled, |ready|, Targets(b, tiles), sym)
    requires Ops(end) == Ops(polled) + down && (down == [] || down == WindDown(b, tiles))
    ensures PokesAreDue(b, initial, end, |start|, Targets(b, tiles), sym)
  {
    hide PokeIsDue, Preparation, StartOps, WindDown, Targets;
    OtherPhases(b, tiles, image);
    forall k | |start| <= k < |end|
      ensures PokeIsDue(b, initial, end, k, Targets(b, tiles), sym)
    {
      if k < |ready| {
        assert end[k].op == Ops(ready)[k] == (Preparation(tiles, image) + StartOps(tiles))[k - |start|];
        NotAPoke(b, initial, end, k, Targets(b, tiles), sym);
      } else if k < |polled| {
        DueStays(b, initial, polled, end, k, Targets(b, tiles), sym);
      } else {
        assert end[k].op == Ops(end)[k] == down[k - |polled|];
        NotAPoke(b, initial, end, k, Targets(b, tiles), sym);
      }
    }
  }

  lemma NotAPoke(b: Board, initial: Chip, log: seq<Step>, k: nat, tiles: seq<Coord>, sym: Symbols)
    requires k < |log| && !log[k].op.Poke?
    ensures PokeIsDue(b, initial, log, k, tiles, sym)
  {
  }

  lemma PlanPhases(before: seq<Op>, prep: seq<Op>, starts: seq<Op>)
    ensures before + prep + starts == before + (prep + starts)
  {
  }

  lemma PlanInPhases(before: seq<Op>, prep: seq<Op>, starts: seq<Op>, pokes: seq<Op>, down: seq<Op>)
    ensures before + prep + starts + pokes + down == before + (prep + starts + pokes + down)
  {
  }

  lemma LastStep(b: Board, c: Chip, s: Step)
    ensures ExecAll(b, c, [s]) == Exec(b, Drift(c, s.changes), s.op)
  {
    hide Exec;
    assert [s][1..] == [];
  }

  lemma CallEnds(
    b: Board, initial: Chip, before: seq<Step>, after: seq<Step>, tiles: Option<seq<Coord>>, image: seq<Segment>,
    pokes: seq<Op>, wait: bool)
    requires OnlyPokes(pokes) && Ops(after) == Ops(before) + LoadPlan(b, tiles, image, pokes, wait)
    requires before <= after
    ensures var c, c' := ExecAll(b, initial, before), ExecAll(b, initial, after);
            wait && Call(b, c, tiles, image) ==> WoundDown(b, c', tiles)
  {
    hide InReset, ExecAll, LoadPlan, Targets;
    var steps := after[|before|..];
    assert before + steps == after && after[|before|..|after|] == steps;
    ExecAppend(b, initial, before, steps);
    OpsSlice(after, |before|, |after|);
    if wait && Call(b, ExecAll(b, initial, before), tiles, image) {
      WaitEndsInResetAndIdle(b, ExecAll(b, initial, before), tiles, image, pokes, steps);
    }
  }

  /** What a call has done by its end: every target held the image, every tile it is about was
      started, and none ran when the chip was sent to sleep. */
  lemma CallOutcome(
    b: Board, initial: Chip, before: seq<Step>, after: seq<Step>, tiles: Option<seq<Coord>>, image: seq<Segment>,
    pokes: seq<Op>, wait: bool)
    requires before <= after && Ops(after) == Ops(before) + LoadPlan(b, tiles, image, pokes, wait) && OnlyPokes(pokes)
    ensures forall t :: t in ExecAll(b, initial, after).mem && StopReaches(b, tiles, t) ==>
              Launched(b, initial, after, |before|, t)
    ensures Call(b, ExecAll(b, initial, before), tiles, image) ==>
              forall i :: 0 <= i < |Targets(b, tiles)| ==>
                ImageReady(b, initial, after, |before|, image, Targets(b, tiles)[i])
    ensures IdlesHeld(b, initial, after, |before|, Targets(b, tiles))
  {
    hide ExecAll, LoadPlan, StopReaches, Launched, Call, ImageReady, Targets, IdlesHeld;
    CallIdlesHeld(b, initial, before, after, tiles, image, pokes, wait);
    forall t | t in ExecAll(b, initial, after).mem && StopReaches(b, tiles, t)
      ensures Launched(b, initial, after, |before|, t)
    {
      CallLaunches(b, initial, before, after, tiles, image, pokes, wait, t);
    }
    if Call(b, ExecAll(b, initial, before), tiles, image) {
      forall i | 0 <= i < |Targets(b, tiles)|
        ensures ImageReady(b, initial, after, |before|, image, Targets(b, tiles)[i])
      {
        CallReadies(b, initial, before, after, tiles, image, pokes, wait, Targets(b, tiles)[i]);
      }
    }
  }

  lemma QuickPhases(before: seq<Op>, tile: Coord, image: seq<Segment>, pokes: seq<Op>, wait: bool)
    ensures before + Preparation(Some([tile]), image) + StartOps(Some([tile])) + pokes
            + (if wait then [SetReset(tile, STOP)] else [])
            == before + QuickPlan(tile, image, pokes, wait)
  {
    hide Preparation, StartOps;
  }

  lemma QuickCallEnds(
    b: Board, initial: Chip, before: seq<Step>, after: seq<Step>, tile: Coord, image: seq<Segment>, pokes: seq<Op>,
    wait: bool)
    requires OnlyPokes(pokes) && before <= after && Ops(after) == Ops(before) + QuickPlan(tile, image, pokes, wait)
    ensures var c, c' := ExecAll(b, initial, before), ExecAll(b, initial, after);
            wait && tile in c.mem ==> tile in c'.mem && InReset(c'.mem[tile]) && c'.busy
  {
    hide InReset, ExecAll, QuickPlan;
    var steps := after[|before|..];
    assert before + steps == after && after[|before|..|after|] == steps;
    ExecAppend(b, initial, before, steps);
    OpsSlice(after, |before|, |after|);
    if wait && tile in ExecAll(b, initial, before).mem {
      QuickLoadEnds(b, ExecAll(b, initial, before), tile, image, pokes, steps);
    }
  }
}
