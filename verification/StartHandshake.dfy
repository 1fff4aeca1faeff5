/** The start handshake of a kernel: the core writes 1, waits for 2 and writes 3; the host polls
    with `start_sync`. Host accesses and core steps interleave freely. */
module StartHandshake {

  /** Where the core is: before its first write, waiting for the host, about to write 3, running. */
  datatype Core = Fresh | Waiting | Released | Running

  /** Where one `start_sync` call is. `Scan(i, quiet)` reads the state word of core `i`; `quiet`
      says that every state read so far was zero or absent. */
  datatype Host =
    | Outside
    | Scan(i: nat, quiet: bool)
    | ReadSync
    | WriteTwo
    | Reread
    | Returned(started: bool)

  /** `states[i]` is the state word of core `i`, if the image has that symbol. `hasSync` says
      whether it has a start-sync symbol. `sawStarted` records a non-zero state read. */
  datatype State = State(
    sync: nat, hasSync: bool, states: seq<(bool, nat)>, core: Core, host: Host, sawStarted: bool)

  datatype Action =
    | Call
    | HostStep
    | Leave
    | CoreStep
    | SetState(i: nat, value: nat)

  function HostNext(s: State): State {
    match s.host
    case Scan(i, quiet) =>
      if i < |s.states| then
        if s.states[i].0 && s.states[i].1 != 0 then s.(host := Scan(i + 1, false), sawStarted := true)
        else s.(host := Scan(i + 1, quiet))
      else if quiet && s.hasSync then s.(host := ReadSync)
      else s.(host := Returned(true))
    case ReadSync =>
      if s.sync == 3 then s.(host := Returned(true))
      else if s.sync == 1 then s.(host := WriteTwo)
      else s.(host := Returned(false))
    case WriteTwo => s.(sync := 2, host := Reread)
    case Reread => s.(host := Returned(s.sync == 3))
    case _ => s
  }

  function CoreNext(s: State): State {
    match s.core
    case Fresh => s.(sync := 1, core := Waiting)
    case Waiting => if s.sync == 2 then s.(core := Released) else s
    case Released => s.(sync := 3, core := Running)
    case Running => s
  }

  function Apply(s: State, a: Action): State {
    match a
    case Call => if s.host.Outside? then s.(host := Scan(0, true), sawStarted := false) else s
    case HostStep => HostNext(s)
    case Leave => if s.host.Returned? then s.(host := Outside) else s
    case CoreStep => CoreNext(s)
    case SetState(i, value) => if i < |s.states| then s.(states := s.states[i := (s.states[i].0, value)]) else s
  }

  function Run(s: State, actions: seq<Action>): State
    decreases |actions|
  {
    if actions == [] then s else Run(Apply(s, actions[0]), actions[1..])
  }

  /** Only a running core leaves a 3; the host only ever overwrites a 1 of a core that has not
      been released. */
  predicate Inv(s: State) {
    && (s.core.Running? ==> s.sync == 3)
    && (!s.core.Running? ==> s.sync != 3)
    && (s.core.Waiting? ==> s.sync == 1 || s.sync == 2)
    && (s.core.Released? ==> s.sync == 2)
    && (s.host.WriteTwo? ==> s.sync == 1 && (s.core.Fresh? || s.core.Waiting?))
    && (s.host.Scan? && !s.host.quiet ==> s.sawStarted)
    && (s.host == Returned(true) ==> s.core.Running? || !s.hasSync || s.sawStarted)
  }

  lemma ActionKeeps(s: State, a: Action)
    requires Inv(s)
    ensures Inv(Apply(s, a))
  {
  }

  lemma {:induction false} RunKeeps(s: State, actions: seq<Action>)
    requires Inv(s)
    ensures Inv(Run(s, actions))
    decreases |actions|
  {
    hide Inv, Apply;
    if actions != [] {
      ActionKeeps(s, actions[0]);
      RunKeeps(Apply(s, actions[0]), actions[1..]);
    }
  }

  lemma {:induction false} RunThen(s: State, actions: seq<Action>, a: Action)
    ensures Run(s, actions + [a]) == Apply(Run(s, actions), a)
    decreases |actions|
  {
    hide Apply;
    if actions == [] {
      assert [] + [a] == [a] && [a][1..] == [];
      RunNothing(Apply(s, a));
    } else {
      assert (actions + [a])[1..] == actions[1..] + [a];
      RunThen(Apply(s, actions[0]), actions[1..], a);
    }
  }

  lemma RunNothing(s: State)
    ensures Run(s, []) == s
  {
  }

  predicate Begin(s: State) {
    s.core.Fresh? && s.host.Outside?
  }

  /** From any initial sync word other than 3, in every interleaving and over any number of polls:
      a 3 in memory was written by the core and is never overwritten, by the host or otherwise. */
  lemma HostNeverOverwritesThree(s0: State, actions: seq<Action>, a: Action)
    requires Begin(s0) && s0.sync != 3
    ensures var s, s' := Run(s0, actions), Run(s0, actions + [a]);
            (s.sync == 3 <==> s.core.Running?) && (s.sync == 3 ==> s'.sync == 3)
  {
    RunKeeps(s0, actions);
    RunThen(s0, actions, a);
    RunKeeps(s0, actions + [a]);
  }

  /** A poll reports a start only when the core has written 3, there is no sync symbol, or some
      core's state was already non-zero when it was read. */
  lemma StartedMeansStarted(s0: State, actions: seq<Action>)
    requires Begin(s0) && s0.sync != 3
    ensures var s := Run(s0, actions);
            s.host == Returned(true) ==> s.core.Running? || !s.hasSync || s.sawStarted
  {
    RunKeeps(s0, actions);
  }

  /** While the core runs, no poll begun since then can answer no. */
  predicate Reporting(s: State) {
    s.core.Running? && s.sync == 3 && !s.host.WriteTwo? && s.host != Returned(false)
  }

  lemma ReportingStep(s: State, a: Action)
    requires Reporting(s)
    ensures Reporting(Apply(s, a))
  {
  }

  lemma {:induction false} ReportingRun(s: State, actions: seq<Action>)
    requires Reporting(s)
    ensures Reporting(Run(s, actions))
    decreases |actions|
  {
    hide Reporting, Apply;
    if actions != [] {
      ReportingStep(s, actions[0]);
      ReportingRun(Apply(s, actions[0]), actions[1..]);
    }
  }

  /** The other half: once the core has written 3, every poll begun from then on reports a start,
      in every interleaving and however often the host polls. So with a sync symbol and no state
      word seen non-zero, such a poll answers exactly whether the core has started. */
  lemma StartIsReported(s0: State, before: seq<Action>, after: seq<Action>)
    requires Begin(s0) && s0.sync != 3
    requires Run(s0, before).host.Outside? && Run(s0, before).core.Running?
    ensures Run(Run(s0, before), after).host != Returned(false)
  {
    RunKeeps(s0, before);
    ReportingRun(Run(s0, before), after);
  }

  // ------------------------------------------------------- the handshake completes

  /** How many of its own accesses a poll is away from its answer. */
  function Left(s: State): nat {
    match s.host
    case Outside => 0
    case Scan(i, _) => if i < |s.states| then |s.states| - i + 4 else 4
    case ReadSync => 3
    case WriteTwo => 2
    case Reread => 1
    case Returned(_) => 0
  }

  /** Every access brings the poll nearer to its answer, and nothing the core does delays it. */
  lemma PollAdvances(s: State, a: Action)
    requires Left(s) > 0
    ensures if a.HostStep? then Left(Apply(s, a)) < Left(s) else Left(Apply(s, a)) == Left(s)
    ensures Left(Apply(s, a)) == 0 ==> Apply(s, a).host.Returned?
  {
  }

  /** Once the core has written its 1, no poll that saw no state word set ends with a 1 in memory. */
  predicate Answering(s: State) {
    && s.hasSync && !s.core.Fresh?
    && (s.host.Reread? || (s.host.Returned? && !s.sawStarted) ==> s.sync != 1)
  }

  lemma AnsweringStep(s: State, a: Action)
    requires Inv(s) && Answering(s)
    ensures Answering(Apply(s, a))
  {
  }

  lemma {:induction false} AnsweringRun(s: State, actions: seq<Action>)
    requires Inv(s) && Answering(s)
    ensures Answering(Run(s, actions))
    decreases |actions|
  {
    hide Answering, Apply, Inv;
    if actions != [] {
      ActionKeeps(s, actions[0]);
      AnsweringStep(s, actions[0]);
      AnsweringRun(Apply(s, actions[0]), actions[1..]);
    }
  }

  /** A core without a 1 to be answered runs after two steps of its own. */
  lemma TwoCoreSteps(s: State)
    requires Inv(s) && !s.core.Fresh? && s.sync != 1
    ensures Run(s, [CoreStep, CoreStep]).core.Running? && Run(s, [CoreStep, CoreStep]).sync == 3
  {
    hide Run;
    RunNothing(s);
    assert [] + [CoreStep] == [CoreStep] && [CoreStep] + [CoreStep] == [CoreStep, CoreStep];
    RunThen(s, [], CoreStep);
    RunThen(s, [CoreStep], CoreStep);
  }

  /** The handshake goes through: whenever a poll begun after the core has written its 1 comes to an
      answer without having seen a state word set, the core has been released, in every interleaving;
      two steps of its own then make it run, and by StartIsReported every later poll reports it. */
  lemma HandshakeCompletes(s0: State, before: seq<Action>, after: seq<Action>)
    requires Begin(s0) && s0.sync != 3 && s0.hasSync
    requires Run(s0, before).host.Outside? && !Run(s0, before).core.Fresh?
    ensures var s := Run(Run(s0, before), after);
            s.host.Returned? && !s.sawStarted ==>
              s.sync != 1 && Run(s, [CoreStep, CoreStep]).core.Running? && Run(s, [CoreStep, CoreStep]).sync == 3
  {
    hide Run, Inv;
    var begun := Run(s0, before);
    BeginInv(s0);
    RunKeeps(s0, before);
    HasSyncStays(s0, before);
    AnsweringRun(begun, after);
    RunKeeps(begun, after);
    var s := Run(begun, after);
    if s.host.Returned? && !s.sawStarted {
      TwoCoreSteps(s);
    }
  }

  lemma BeginInv(s: State)
    requires Begin(s) && s.sync != 3
    ensures Inv(s)
  {
  }

  // ------------------------------------------------------- a stale 3

  lemma {:induction false} ScanQuiet(s0: State, done: seq<Action>, n: nat) returns (actions: seq<Action>)
    requires Begin(Run(s0, done)) && n <= |Run(s0, done).states|
    requires forall i: nat :: i < |Run(s0, done).states| ==> Run(s0, done).states[i].1 == 0
    ensures Run(s0, actions) == Run(s0, done).(host := Scan(n, true), sawStarted := false)
    decreases n
  {
    hide Run;
    if n == 0 {
      RunThen(s0, done, Call);
      actions := done + [Call];
    } else {
      actions := ScanQuiet(s0, done, n - 1);
      RunThen(s0, actions, HostStep);
      actions := actions + [HostStep];
    }
  }

  /** The first `n` state words cleared. */
  function Cleared(states: seq<(bool, nat)>, n: nat): (r: seq<(bool, nat)>)
    requires n <= |states|
    ensures |r| == |states|
    ensures forall i: nat :: i < |r| ==> r[i] == (states[i].0, if i < n then 0 else states[i].1)
  {
    seq(|states|, i requires 0 <= i < |states| => (states[i].0, if i < n then 0 else states[i].1))
  }

  /** Whatever the state words are, they may all be cleared before the host polls. */
  lemma {:induction false} ClearStates(s0: State, n: nat) returns (actions: seq<Action>)
    requires n <= |s0.states|
    ensures Run(s0, actions) == s0.(states := Cleared(s0.states, n))
    decreases n
  {
    hide Run;
    if n == 0 {
      RunNothing(s0);
      assert Cleared(s0.states, 0) == s0.states;
      actions := [];
    } else {
      actions := ClearStates(s0, n - 1);
      RunThen(s0, actions, SetState(n - 1, 0));
      actions := actions + [SetState(n - 1, 0)];
      assert Cleared(s0.states, n) == Cleared(s0.states, n - 1)[n - 1 := (s0.states[n - 1].0, 0)];
    }
  }

  /** With a 3 left over in memory a poll can report a start although the core has not run, whatever
      the state words. */
  lemma StaleThreeFoolsPoll(s0: State) returns (actions: seq<Action>)
    requires Begin(s0) && s0.hasSync && s0.sync == 3
    ensures var s := Run(s0, actions);
            s.host == Returned(true) && s.core.Fresh? && s.hasSync && !s.sawStarted
  {
    hide Run;
    var n := |s0.states|;
    actions := ClearStates(s0, n);
    actions := ScanQuiet(s0, actions, n);
    RunThen(s0, actions, HostStep);
    actions := actions + [HostStep];
    RunThen(s0, actions, HostStep);
    actions := actions + [HostStep];
  }

  /** A poll has reported a start that has not happened and that no state word showed. */
  predicate Fooled(s: State) {
    s.host == Returned(true) && !s.core.Running? && !s.sawStarted
  }

  /** When a poll can report a start that has not happened and that no state word showed: exactly
      when the initial sync word is 3. */
  lemma FoolableIff(s0: State)
    requires Begin(s0) && s0.hasSync
    ensures s0.sync == 3 <==> exists actions :: Fooled(Run(s0, actions))
  {
    if s0.sync == 3 {
      var actions := StaleThreeFoolsPoll(s0);
      assert Fooled(Run(s0, actions));
    } else {
      forall actions
        ensures !Fooled(Run(s0, actions))
      {
        RunKeeps(s0, actions);
        HasSyncStays(s0, actions);
      }
    }
  }

  lemma {:induction false} HasSyncStays(s: State, actions: seq<Action>)
    ensures Run(s, actions).hasSync == s.hasSync
    decreases |actions|
  {
    if actions != [] {
      HasSyncStays(Apply(s, actions[0]), actions[1..]);
    }
  }

  // ------------------------------------------------------- start_sync as code

  predicate CoreActions(batch: seq<Action>) {
    forall i :: 0 <= i < |batch| ==> batch[i].CoreStep? || batch[i].SetState?
  }

  lemma {:induction false} CoreRunKeepsHost(s: State, batch: seq<Action>)
    requires CoreActions(batch)
    ensures var t := Run(s, batch);
            t.host == s.host && t.hasSync == s.hasSync && t.sawStarted == s.sawStarted && |t.states| == |s.states|
    ensures forall i: nat :: i < |s.states| ==> Run(s, batch).states[i].0 == s.states[i].0
    decreases |batch|
  {
    if batch != [] {
      CoreRunKeepsHost(Apply(s, batch[0]), batch[1..]);
    }
  }

  class Tile {
    var s: State
    /** What the core is going to do before each coming host access. */
    var script: seq<seq<Action>>

    ghost predicate Valid()
      reads this
    {
      Inv(s) && |s.states| == 5 && forall i :: 0 <= i < |script| ==> CoreActions(script[i])
    }

    constructor (s: State, script: seq<seq<Action>>)
      requires Begin(s) && s.sync != 3 && |s.states| == 5
      requires forall i :: 0 <= i < |script| ==> CoreActions(script[i])
      ensures this.s == s && this.script == script && Valid()
    {
      this.s, this.script := s, script;
    }

    /** One access of the poll, after the core has had its turn; `mid` is the state it sees. */
    method Access() returns (ghost mid: State)
      requires Valid()
      modifies this
      ensures Valid() && s == HostNext(mid) && Inv(mid)
      ensures mid.host == old(s.host) && mid.hasSync == old(s.hasSync) && mid.sawStarted == old(s.sawStarted)
      ensures |mid.states| == 5 && forall i: nat :: i < 5 ==> mid.states[i].0 == old(s.states)[i].0
      ensures old(Reporting(s)) ==> Reporting(s)
      ensures old(Answering(s)) ==> Answering(s)
    {
      hide Inv, Reporting, Answering;
      if script != [] {
        CoreRunKeepsHost(s, script[0]);
        RunKeeps(s, script[0]);
        PromisesKept(s, script[0]);
        s := Run(s, script[0]);
        script := script[1..];
      }
      mid := s;
      ActionKeeps(s, HostStep);
      PromisesStep(s, HostStep);
      s := HostNext(s);
    }

    /** The state word of core `i`, when the image has that symbol. */
    method ReadState(i: nat) returns (present: bool, value: nat)
      requires Valid() && s.host.Scan? && s.host.i == i < 5
      modifies this
      ensures Valid() && present == old(s.states)[i].0 && s.hasSync == old(s.hasSync)
      ensures s.host == Scan(i + 1, old(s.host.quiet) && !(present && value != 0))
      ensures (old(Reporting(s)) ==> Reporting(s)) && (old(Answering(s)) ==> Answering(s))
    {
      hide Inv, Reporting, Answering;
      var mid := Access();
      present, value := s.states[i].0, s.states[i].1;
    }

    method ReadSyncWord() returns (value: nat)
      requires Valid() && (s.host.ReadSync? || s.host.Reread?)
      modifies this
      ensures Valid() && s.hasSync == old(s.hasSync)
      ensures s.host == if value == 1 && old(s.host).ReadSync? then WriteTwo else Returned(value == 3)
      ensures (old(Reporting(s)) ==> Reporting(s)) && (old(Answering(s)) ==> Answering(s))
    {
      hide Inv, Reporting, Answering;
      var mid := Access();
      value := s.sync;
    }

    method WriteSyncWord(value: nat)
      requires Valid() && s.host.WriteTwo? && value == 2
      modifies this
      ensures Valid() && s.host == Reread && s.sync == value && s.hasSync == old(s.hasSync)
      ensures (old(Reporting(s)) ==> Reporting(s)) && (old(Answering(s)) ==> Answering(s))
    {
      hide Inv, Reporting, Answering;
      var _ := Access();
    }

    /** The poll as a whole. It finds a core that runs, and it answers a core that has written its
        1, if it saw no state word set: that core is released, whatever the answer. */
    method StartSync() returns (started: bool)
      requires Valid() && s.host.Outside?
      modifies this
      ensures Valid() && s.host.Outside? && s.hasSync == old(s.hasSync)
      ensures started ==> s.core.Running? || !s.hasSync || s.sawStarted
      ensures !started ==> s.hasSync
      ensures old(s.core).Running? ==> started
      ensures !old(s.core).Fresh? && s.hasSync && !s.sawStarted ==> !s.core.Fresh? && s.sync != 1
    {
      hide Inv, Reporting, Answering;
      ActionKeeps(s, Call);
      PollBegins(s);
      s := Apply(s, Call);
      var quiet := true;
      for i := 0 to 5
        invariant Valid() && s.host == Scan(i, quiet) && s.hasSync == old(s.hasSync)
        invariant old(s.core).Running? ==> Reporting(s)
        invariant !old(s.core).Fresh? && s.hasSync ==> Answering(s)
      {
        var present, value := ReadState(i);
        if present && value != 0 {
          quiet := false;
        }
      }
      var _ := Access();
      started := true;
      if quiet {
        if s.hasSync {
          var sync := ReadSyncWord();
          if sync != 3 {
            if sync == 1 {
              WriteSyncWord(2);
              sync := ReadSyncWord();
            }
            started := sync == 3;
          }
        }
      }
      ReturnedTrue(s);
      s := Apply(s, Leave);
    }
  }

  lemma ReturnedTrue(s: State)
    requires Inv(s) && s.host.Returned?
    ensures s.host.started ==> s.core.Running? || !s.hasSync || s.sawStarted
    ensures Reporting(s) ==> s.host.started
    ensures Answering(s) ==> !s.core.Fresh? && (!s.sawStarted ==> s.sync != 1)
    ensures Inv(Apply(s, Leave))
  {
  }

  lemma PromisesStep(s: State, a: Action)
    requires Inv(s)
    ensures Reporting(s) ==> Reporting(Apply(s, a))
    ensures Answering(s) ==> Answering(Apply(s, a))
  {
    hide Inv, Reporting, Answering, Apply;
    if Reporting(s) {
      ReportingStep(s, a);
    }
    if Answering(s) {
      AnsweringStep(s, a);
    }
  }

  lemma PromisesKept(s: State, actions: seq<Action>)
    requires Inv(s)
    ensures Reporting(s) ==> Reporting(Run(s, actions))
    ensures Answering(s) ==> Answering(Run(s, actions))
  {
    hide Inv, Reporting, Answering, Run;
    if Reporting(s) {
      ReportingRun(s, actions);
    }
    if Answering(s) {
      AnsweringRun(s, actions);
    }
  }

  lemma PollBegins(s: State)
    requires Inv(s) && s.host.Outside?
    ensures s.core.Running? ==> Reporting(Apply(s, Call))
    ensures !s.core.Fresh? && s.hasSync ==> Answering(Apply(s, Call))
  {
  }
}
