/** Progress of the message queue: a published request is taken by firmware steps alone, from every
    reachable state in which its sender has passed the interrupt. */
module QueueProgress {
  import opened QueueLayout
  import opened QueueModel
  import opened QueueSafety

  /** A request waits and its sender is past the interrupt. */
  predicate RequestWaits(s: State) {
    |s.served| < |s.requests| && !s.host.RaiseRead? && !s.host.RaiseWrite?
  }

  /** How far the firmware is from taking the next request: its stages on the way, and the words
      left in the stage. */
  function Stage(s: State): nat {
    match s.firmware
    case Take(_) => 0
    case Seen(_, count) => if count == |s.served| then 4 else 1
    case Check => 2
    case Asleep => 3
    case Reply(_, _) => 5
  }

  function WordsLeft(c: Config, s: State): int {
    match s.firmware
    case Take(words) => c.layout.n - |words|
    case Reply(response, i) => |response| - i
    case _ => 0
  }

  predicate Nearer(c: Config, s: State, t: State) {
    Stage(t) < Stage(s) || (Stage(t) == Stage(s) && 0 <= WordsLeft(c, t) < WordsLeft(c, s))
  }

  /** One step takes the request, or comes nearer to it and keeps it waiting. */
  predicate Advances(c: Config, s: State, t: State) {
    && t.host == s.host && t.requests == s.requests && t.popped == s.popped
    && (|t.served| == |s.served| + 1 || (t.served == s.served && RequestWaits(t) && Nearer(c, s, t)))
  }

  lemma AdvancesAwake(c: Config, s: State)
    requires Inv(c, s) && RequestWaits(s) && (s.firmware.Asleep? || s.firmware.Check?)
    ensures Advances(c, s, FirmwareNext(c, s))
  {
    hide Stored, Words, Offset, Holds, Layout.Pointer, Layout.Advance, Layout.RequestSlot, Layout.ResponseSlot, Full;
  }

  lemma AdvancesSeen(c: Config, s: State)
    requires Inv(c, s) && RequestWaits(s) && s.firmware.Seen?
    ensures Advances(c, s, FirmwareNext(c, s))
  {
    hide Stored, Words, Offset, Holds, Layout.Pointer, Layout.Advance, Layout.RequestSlot, Layout.ResponseSlot, Full;
    PointersDiffer(c.layout, c.requestStart + |s.served|, c.requestStart + s.firmware.count);
  }

  lemma AdvancesTake(c: Config, s: State)
    requires Inv(c, s) && RequestWaits(s) && s.firmware.Take?
    ensures Advances(c, s, FirmwareNext(c, s))
  {
    hide Stored, Words, Offset, Holds, Layout.Pointer, Layout.Advance, Layout.RequestSlot, Layout.ResponseSlot, Full;
  }

  lemma AdvancesReply(c: Config, s: State)
    requires Inv(c, s) && RequestWaits(s) && s.firmware.Reply?
    ensures Advances(c, s, FirmwareNext(c, s))
  {
    hide Stored, Words, Offset, Holds, Layout.Pointer, Layout.Advance, Layout.RequestSlot, Layout.ResponseSlot, Full;
  }

  lemma NextAdvances(c: Config, s: State)
    requires Inv(c, s) && RequestWaits(s)
    ensures Advances(c, s, FirmwareNext(c, s))
  {
    hide Inv, RequestWaits, Advances, FirmwareNext;
    match s.firmware
    case Take(_) => AdvancesTake(c, s);
    case Seen(_, _) => AdvancesSeen(c, s);
    case Reply(_, _) => AdvancesReply(c, s);
    case _ => AdvancesAwake(c, s);
  }

  predicate FirmwareOnly(actions: seq<Action>) {
    forall i :: 0 <= i < |actions| ==> actions[i].FirmwareStep?
  }

  lemma {:induction false} TakenFrom(c: Config, s: State) returns (actions: seq<Action>)
    requires Inv(c, s) && RequestWaits(s)
    ensures FirmwareOnly(actions)
    ensures |Run(c, s, actions).served| == |s.served| + 1 && Run(c, s, actions).requests == s.requests
    decreases Stage(s), WordsLeft(c, s)
  {
    hide Inv, Apply, RequestWaits, Stage, WordsLeft;
    InvSized(c, s);
    var a := FirmwareStep;
    NextAdvances(c, s);
    ActionSafe(c, s, a);
    StepIsFirmwareNext(c, s);
    var t := Apply(c, s, a);
    if |t.served| == |s.served| + 1 {
      actions := [a];
      RunOne(c, s, a);
    } else {
      var rest := TakenFrom(c, t);
      actions := [a] + rest;
      assert actions[1..] == rest;
    }
  }

  lemma StepIsFirmwareNext(c: Config, s: State)
    requires Sized(c, s)
    ensures Apply(c, s, FirmwareStep) == FirmwareNext(c, s)
  {
  }

  lemma RunOne(c: Config, s: State, a: Action)
    requires Sized(c, s)
    ensures Run(c, s, [a]) == Apply(c, s, a)
  {
    hide Apply;
    assert [a][1..] == [];
  }

  /** From every reachable state in which a published request waits with its sender past the
      interrupt, the firmware can take it without any help from the host, and whatever room the
      response ring has: the interrupt or an awake firmware is never missing. What it takes is the
      oldest request not yet taken, whole. */
  lemma PublishedRequestIsTaken(c: Config, s0: State, before: seq<Action>) returns (actions: seq<Action>)
    requires Init(c, s0) && RequestWaits(Run(c, s0, before))
    ensures var s := Run(c, s0, before);
            FirmwareOnly(actions) && Run(c, s, actions).served == s.served + [s.requests[|s.served|]]
  {
    hide Inv, Run, Init, RequestWaits;
    InitSafe(c, s0);
    RunSafe(c, s0, before);
    var s := Run(c, s0, before);
    actions := TakenFrom(c, s);
    RunSafe(c, s, actions);
    ServedIsPrefix(c, s);
    ServedIsPrefix(c, Run(c, s, actions));
    WaitingLeft(s);
    assert s.requests[..|s.served| + 1] == s.requests[..|s.served|] + [s.requests[|s.served|]];
  }

  lemma ServedIsPrefix(c: Config, s: State)
    requires Inv(c, s)
    ensures |s.served| <= |s.requests| && s.served == s.requests[..|s.served|]
  {
  }

  lemma WaitingLeft(s: State)
    requires RequestWaits(s)
    ensures |s.served| < |s.requests|
  {
  }
}
