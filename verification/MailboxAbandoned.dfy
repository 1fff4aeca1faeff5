/** What an abandoned message does to the next one. A message is abandoned when it was sent and its
    reply not waited for. */
module MailboxAbandoned {
  import opened Bits
  import opened MailboxModel

  // ------------------------------------------------------- what holds of every run

  /** The host has put the request word of its message in the register and still looks at it. */
  predicate Posted(h: Host) {
    h.IntRead? || h.IntWrite? || h.Poll?
  }

  /** The host has a result that it read from a reply. */
  predicate HasResult(h: Host) {
    h.ReadReturn? || (h.Done? && (h.outcome.Ok? || h.outcome.MsgNotRecognized?))
  }

  /** The word that a reply leaves in the message register. */
  function WordOf(r: Reply): Word {
    if r.Accepted? then ReplyWord(r.code, r.rc) else ERROR_REPLY
  }

  /** A result that was read from reply `r`. */
  predicate ReadFrom(h: Host, r: Reply) {
    match h
    case ReadReturn(m, rc) => r.Accepted? && r.code.lo == m.Code().lo && rc == Widen(r.rc)
    case Done(m, Ok(rc, _)) => r.Accepted? && r.code.lo == m.Code().lo && rc == Widen(r.rc)
    case Done(_, MsgNotRecognized) => r.Rejected?
    case _ => true
  }

  /** Some message sent after the first `n`, other than the sleep message, was abandoned; the one
      whose reply the host waits for or has read does not count. */
  predicate AbandonedSince(s: State, n: nat) {
    exists j :: n <= j < |s.sent| - (if s.host.Poll? || HasResult(s.host) then 1 else 0) && s.sent[j].Code() != SLEEP
  }

  /** What every run keeps, whatever was abandoned: from a mailbox with `base` replies and `n`
      messages on. */
  predicate Trace(s: State, base: nat, n: nat) {
    && base <= |s.log|
    && (Posted(s.host) ==>
          s.msgReg == RequestWord(s.host.msg) || (base < |s.log| && s.msgReg == WordOf(s.log[|s.log| - 1])))
    && (HasResult(s.host) ==> base <= s.source < |s.log| && ReadFrom(s.host, s.log[s.source]))
    && (s.host.Poll? || HasResult(s.host) ==> n < |s.sent| && IsLast(s, s.host.msg) && s.host.msg.wait)
    && (s.spoiled ==> AbandonedSince(s, n))
  }

  lemma TraceStarts(s: State)
    requires AtRest(s)
    ensures Trace(s, |s.log|, |s.sent|)
  {
    hide Pending, Raise, Clear, Low16, High16, IsErrorReply, RequestWord, IsSuccessFor, ReplyWord;
    hide Message.Code, Message.Arg, Paired, AbandonedSince;
  }

  lemma AbandonedStays(s: State, t: State, n: nat)
    requires AbandonedSince(s, n) && s.sent <= t.sent
    requires |s.sent| - (if s.host.Poll? || HasResult(s.host) then 1 else 0)
             <= |t.sent| - (if t.host.Poll? || HasResult(t.host) then 1 else 0)
    ensures AbandonedSince(t, n)
  {
    hide Message.Code;
    var j :| n <= j < |s.sent| - (if s.host.Poll? || HasResult(s.host) then 1 else 0) && s.sent[j].Code() != SLEEP;
    assert t.sent[j] == s.sent[j];
  }

  lemma AbandonedNow(s: State, n: nat)
    requires n < |s.sent| && !s.host.Poll? && !HasResult(s.host) && s.sent[|s.sent| - 1].Code() != SLEEP
    ensures AbandonedSince(s, n)
  {
    hide Message.Code;
  }

  /** A poll that ends reads the last reply: the host's own word passes neither test. */
  lemma PollReads(s: State, base: nat, n: nat)
    requires Trace(s, base, n) && s.host.Poll?
    ensures HasResult(HostNext(s).host) ==>
      base < |s.log| && HostNext(s).source == |s.log| - 1 && ReadFrom(HostNext(s).host, s.log[|s.log| - 1])
  {
    hide Pending, Raise, Clear, Low16, High16, IsErrorReply, RequestWord, IsSuccessFor, ReplyWord;
    hide Message.Code, Message.Arg, AbandonedSince;
    var m := s.host.msg;
    RequestReads(m);
    if base < |s.log| {
      match s.log[|s.log| - 1] {
        case Accepted(code, _, rc, _) => ReplyWordReads(code, m, rc);
        case Rejected(_, _) =>
          ErrorReply();
          ErrorIsNotSuccess(m, ERROR_REPLY);
      }
    }
  }

  lemma TracePoll(s: State, base: nat, n: nat)
    requires Trace(s, base, n) && s.host.Poll?
    ensures Trace(HostNext(s), base, n)
  {
    hide Pending, Raise, Clear, Low16, High16, IsErrorReply, RequestWord, IsSuccessFor, ReplyWord;
    hide Message.Code, Message.Arg, AbandonedSince, WordOf, ReadFrom;
    PollReads(s, base, n);
    if s.spoiled {
      AbandonedStays(s, HostNext(s), n);
    }
  }

  lemma TraceHost(s: State, base: nat, n: nat)
    requires Trace(s, base, n) && !s.host.Poll? && n <= |s.sent|
    ensures Trace(HostNext(s), base, n)
  {
    hide Pending, Raise, Clear, Low16, High16, IsErrorReply, RequestWord, IsSuccessFor, ReplyWord;
    hide Message.Code, Message.Arg, AbandonedSince, WordOf;
    if s.spoiled {
      AbandonedStays(s, HostNext(s), n);
    } else if HostNext(s).spoiled {
      AbandonedNow(HostNext(s), n);
    }
  }

  lemma TraceFirmware(s: State, base: nat, n: nat)
    requires Trace(s, base, n)
    ensures Trace(FirmwareNext(s), base, n)
  {
    hide Pending, Raise, Clear, Low16, High16, IsErrorReply, RequestWord, IsSuccessFor, ReplyWord;
    hide Message.Code, Message.Arg, AbandonedSince, ReadFrom;
    if s.spoiled {
      AbandonedStays(s, FirmwareNext(s), n);
    }
  }

  lemma TraceDecision(s: State, base: nat, n: nat, a: Action)
    requires Trace(s, base, n) && (a.Reject? || a.Accept?)
    ensures Trace(Apply(s, a), base, n)
  {
    hide Pending, Raise, Clear, Low16, High16, IsErrorReply, RequestWord, IsSuccessFor, ReplyWord;
    hide Message.Code, Message.Arg, AbandonedSince, ReadFrom, HostNext, FirmwareNext;
    if s.spoiled {
      AbandonedStays(s, Apply(s, a), n);
    }
  }

  lemma TraceCaller(s: State, base: nat, n: nat, a: Action)
    requires Trace(s, base, n) && (a.Send? || a.GiveUp? || a.Return?)
    ensures Trace(Apply(s, a), base, n)
  {
    hide Pending, Raise, Clear, Low16, High16, IsErrorReply, RequestWord, IsSuccessFor, ReplyWord;
    hide Message.Code, Message.Arg, AbandonedSince, WordOf, HostNext, FirmwareNext;
    if s.spoiled {
      AbandonedStays(s, Apply(s, a), n);
    } else if Apply(s, a).spoiled {
      AbandonedNow(Apply(s, a), n);
    }
  }

  lemma TraceStep(s: State, base: nat, n: nat, a: Action)
    requires Trace(s, base, n) && n <= |s.sent|
    ensures Trace(Apply(s, a), base, n) && s.sent <= Apply(s, a).sent
  {
    hide Trace, Spoils, Pending, IsAsleep, IsSuccessFor, IsErrorReply, Raise, Clear, ReplyWord;
    match a
    case HostStep => if s.host.Poll? { TracePoll(s, base, n); } else { TraceHost(s, base, n); }
    case FirmwareStep => TraceFirmware(s, base, n);
    case Reject => TraceDecision(s, base, n, a);
    case Accept(_, _) => TraceDecision(s, base, n, a);
    case _ => TraceCaller(s, base, n, a);
  }

  lemma {:induction false} TraceRun(s: State, base: nat, n: nat, actions: seq<Action>)
    requires Trace(s, base, n) && n <= |s.sent|
    ensures Trace(Run(s, actions), base, n)
    decreases |actions|
  {
    hide Trace, Apply;
    if actions != [] {
      TraceStep(s, base, n, actions[0]);
      TraceRun(Apply(s, actions[0]), base, n, actions[1..]);
    }
  }

  /** In every run from a mailbox at rest, whatever was abandoned and however many replies there
      were: a message that ends with Ok waited, and read its return code from an accepted reply of
      the run whose number has its own low code byte; a rejected one read a rejection. */
  lemma ResultIsSomeReply(s0: State, actions: seq<Action>)
    requires AtRest(s0)
    ensures var s := Run(s0, actions);
            s.host.Done? && (s.host.outcome.Ok? || s.host.outcome.MsgNotRecognized?) ==>
              s.host.msg.wait && |s0.log| <= s.source < |s.log| && ReadFrom(s.host, s.log[s.source])
  {
    hide Run, AtRest, ReadFrom, AbandonedSince;
    TraceStarts(s0);
    TraceRun(s0, |s0.log|, |s0.sent|, actions);
  }

  // ------------------------------------------------------- wrong outcomes

  /** Messages with different numbers or arguments. */
  predicate Differ(m1: Message, m2: Message) {
    m1.Code() != m2.Code() || m1.Arg() != m2.Arg()
  }

  /** Exactly the messages `m1` and `m2` were sent, and `m2` has ended with this outcome. */
  predicate EndsAfter(s0: State, s: State, m1: Message, m2: Message) {
    s.sent == s0.sent + [m1] + [m2] && s.host.Done? && s.host.msg == m2
  }

  /** The outcome is not what any reply of the run to message `m` says. */
  predicate NotReported(s: State, base: nat, m: Message, outcome: Outcome) {
    forall k :: base <= k < |s.log| ==> !Reports(s.log[k], m, outcome)
  }

  /** Message `m2` ends with a wrong Ok, or with a wrong rejection, after `m1`. */
  predicate WrongOk(s0: State, s: State, m1: Message, m2: Message) {
    EndsAfter(s0, s, m1, m2) && s.host.outcome.Ok? && NotReported(s, |s0.log|, m2, s.host.outcome)
  }

  predicate WrongRejection(s0: State, s: State, m1: Message, m2: Message) {
    EndsAfter(s0, s, m1, m2) && s.host.outcome.MsgNotRecognized? && NotReported(s, |s0.log|, m2, s.host.outcome)
  }

  /** Message `m2` ends with an Ok that it read from a reply to `m1`. */
  predicate TookReply(s0: State, s: State, m1: Message, m2: Message) {
    && EndsAfter(s0, s, m1, m2) && s.host.outcome.Ok?
    && s.source < |s.log| && Answers(s.log[s.source], m1)
  }

  /** After the sleep message alone, every result is right, and read from its own reply. */
  lemma AfterSleepRight(s0: State, actions: seq<Action>, m1: Message, m2: Message)
    requires AtRest(s0) && m1.Code() == SLEEP && EndsAfter(s0, Run(s0, actions), m1, m2)
    requires var o := Run(s0, actions).host.outcome; o.Ok? || o.MsgNotRecognized?
    ensures var s := Run(s0, actions);
            |s0.log| <= s.source < |s.log| && Reports(s.log[s.source], m2, s.host.outcome)
  {
    hide Run, AtRest, ReadFrom, Reports, Paired, Message.Code, RequestWord, WordOf;
    TraceStarts(s0);
    TraceRun(s0, |s0.log|, |s0.sent|, actions);
    var s := Run(s0, actions);
    assert |s.sent| - 1 == |s0.sent| + 1 && s.sent[|s0.sent|] == m1;
    ReplyIsToThisMessage(s0, actions);
  }

  // ------------------------------------------------------- the runs

  // The stages. The first message is posted, its interrupt raised, and it is abandoned; the
  // firmware has or has not begun to work on it.

  function Posted1(s0: State, m1: Message): State {
    s0.(msgReg := RequestWord(m1), retReg := m1.Arg(), host := IntRead(m1))
  }

  function Left1(s0: State, m1: Message): State {
    s0.(msgReg := RequestWord(m1), retReg := m1.Arg(), misc := Raise(s0.misc), sent := s0.sent + [m1],
        host := Idle, spoiled := true)
  }

  function AtWork(s0: State, m1: Message): State {
    Left1(s0, m1).(misc := Clear(Raise(s0.misc)), firmware := Work(m1.Code(), m1.Arg()))
  }

  lemma PostFirst(s0: State, m1: Message) returns (actions: seq<Action>)
    requires AtRest(s0) && !IsAsleep(s0.msgReg)
    ensures Run(s0, actions) == Posted1(s0, m1)
  {
    hide Pending, Raise, Clear, Low16, High16, IsErrorReply, RequestWord, IsSuccessFor, ReplyWord;
    hide Message.Code, Message.Arg, Run, Paired, IsAsleep;
    RunNothing(s0);
    actions := [];
    actions := Extend(s0, actions, Send(m1));
    actions := Extend(s0, actions, HostStep);
    actions := Extend(s0, actions, HostStep);
    actions := Extend(s0, actions, HostStep);
  }

  lemma LeaveFirst(s0: State, m1: Message, done: seq<Action>) returns (actions: seq<Action>)
    requires AtRest(s0) && m1.Code() != SLEEP && Run(s0, done) == Posted1(s0, m1)
    ensures Run(s0, actions) == Left1(s0, m1)
  {
    hide Pending, Raise, Clear, Low16, High16, IsErrorReply, RequestWord, IsSuccessFor, ReplyWord;
    hide Message.Code, Message.Arg, Run, Paired, IsAsleep;
    RaiseAndClear(s0.misc);
    actions := done;
    actions := Extend(s0, actions, HostStep);
    actions := Extend(s0, actions, HostStep);
    actions := Extend(s0, actions, GiveUp);
    actions := Extend(s0, actions, Return);
  }

  lemma WorkOnFirst(s0: State, m1: Message, done: seq<Action>) returns (actions: seq<Action>)
    requires AtRest(s0) && Run(s0, done) == Left1(s0, m1)
    ensures Run(s0, actions) == AtWork(s0, m1)
  {
    hide Pending, Raise, Clear, Low16, High16, IsErrorReply, RequestWord, IsSuccessFor, ReplyWord;
    hide Message.Code, Message.Arg, Run, Paired, IsAsleep;
    RaiseAndClear(s0.misc);
    RequestReads(m1);
    actions := done;
    actions := Extend(s0, actions, FirmwareStep);
    actions := Extend(s0, actions, FirmwareStep);
    actions := Extend(s0, actions, FirmwareStep);
  }

  // The second message while the firmware works on the first: it takes the first one's answer.

  function Posted2(s0: State, m1: Message, m2: Message): State {
    AtWork(s0, m1).(msgReg := RequestWord(m2), retReg := m2.Arg(), host := IntRead(m2))
  }

  function Polling2(s0: State, m1: Message, m2: Message): State {
    Posted2(s0, m1, m2).(misc := Raise(Clear(Raise(s0.misc))), sent := s0.sent + [m1] + [m2], host := Poll(m2))
  }

  function Took(s0: State, m1: Message, m2: Message, rc: Half, result: Word): State {
    Polling2(s0, m1, m2).(
      msgReg := ReplyWord(m1.Code(), rc), retReg := result, firmware := Waiting, source := |s0.log|,
      log := s0.log + [Accepted(m1.Code(), m1.Arg(), rc, result)], host := Done(m2, Ok(Widen(rc), result)))
  }

  function TookRejection(s0: State, m1: Message, m2: Message): State {
    Polling2(s0, m1, m2).(
      msgReg := ERROR_REPLY, firmware := Waiting, source := |s0.log|,
      log := s0.log + [Rejected(m1.Code(), m1.Arg())], host := Done(m2, MsgNotRecognized))
  }

  lemma PostSecond(s0: State, m1: Message, m2: Message, done: seq<Action>) returns (actions: seq<Action>)
    requires Run(s0, done) == AtWork(s0, m1) && m1.Code() != SLEEP
    ensures Run(s0, actions) == Posted2(s0, m1, m2)
  {
    hide Pending, Raise, Clear, Low16, High16, IsErrorReply, RequestWord, IsSuccessFor, ReplyWord;
    hide Message.Code, Message.Arg, Run, Paired;
    RequestReads(m1);
    actions := done;
    actions := Extend(s0, actions, Send(m2));
    actions := Extend(s0, actions, HostStep);
    actions := Extend(s0, actions, HostStep);
    actions := Extend(s0, actions, HostStep);
  }

  lemma RaiseSecond(s0: State, m1: Message, m2: Message, done: seq<Action>) returns (actions: seq<Action>)
    requires Run(s0, done) == Posted2(s0, m1, m2) && m2.wait
    ensures Run(s0, actions) == Polling2(s0, m1, m2)
  {
    hide Pending, Raise, Clear, Low16, High16, IsErrorReply, RequestWord, IsSuccessFor, ReplyWord;
    hide Message.Code, Message.Arg, Run, Paired, IsAsleep;
    RaiseAndClear(Raise(s0.misc));
    actions := done;
    actions := Extend(s0, actions, HostStep);
    actions := Extend(s0, actions, HostStep);
  }

  lemma AcceptFirst(s0: State, m1: Message, m2: Message, rc: Half, result: Word, done: seq<Action>)
    returns (actions: seq<Action>)
    requires Run(s0, done) == Polling2(s0, m1, m2) && m1.Code().lo == m2.Code().lo
    ensures Run(s0, actions) == Took(s0, m1, m2, rc, result)
  {
    hide Pending, Raise, Clear, Low16, High16, IsErrorReply, RequestWord, IsSuccessFor, ReplyWord;
    hide Message.Code, Message.Arg, Run, Paired, IsAsleep;
    ReplyWordReads(m1.Code(), m2, rc);
    actions := done;
    actions := Extend(s0, actions, Accept(rc, result));
    actions := Extend(s0, actions, FirmwareStep);
    actions := Extend(s0, actions, HostStep);
    actions := Extend(s0, actions, HostStep);
  }

  lemma RejectFirst(s0: State, m1: Message, m2: Message, done: seq<Action>) returns (actions: seq<Action>)
    requires Run(s0, done) == Polling2(s0, m1, m2)
    ensures Run(s0, actions) == TookRejection(s0, m1, m2)
  {
    hide Pending, Raise, Clear, Low16, High16, IsErrorReply, RequestWord, IsSuccessFor, ReplyWord;
    hide Message.Code, Message.Arg, Run, Paired, IsAsleep;
    ErrorReply();
    ErrorIsNotSuccess(m2, ERROR_REPLY);
    actions := done;
    actions := Extend(s0, actions, Reject);
    actions := Extend(s0, actions, HostStep);
  }

  /** The firmware at work on an abandoned message while the next one polls. */
  lemma PollBehind(s0: State, m1: Message, m2: Message) returns (actions: seq<Action>)
    requires AtRest(s0) && !IsAsleep(s0.msgReg) && m2.wait && m1.Code() != SLEEP
    ensures Run(s0, actions) == Polling2(s0, m1, m2)
  {
    hide Run, Apply, AtRest, IsAsleep, Posted1, Left1, AtWork, Posted2, Polling2, Message.Code;
    actions := PostFirst(s0, m1);
    actions := LeaveFirst(s0, m1, actions);
    actions := WorkOnFirst(s0, m1, actions);
    actions := PostSecond(s0, m1, m2, actions);
    actions := RaiseSecond(s0, m1, m2, actions);
  }

  /** For any two messages with the same low code byte, the first not the sleep message and the
      second one waiting, and for any reply: a run of just these two in which the second returns Ok
      with the reply to the abandoned first. */
  lemma StaleReply(s0: State, m1: Message, m2: Message, rc: Half, result: Word) returns (actions: seq<Action>)
    requires AtRest(s0) && !IsAsleep(s0.msgReg)
    requires m2.wait && m1.Code().lo == m2.Code().lo && m1.Code() != SLEEP
    ensures var s := Run(s0, actions);
            && TookReply(s0, s, m1, m2) && s.host.outcome == Ok(Widen(rc), result)
            && s.log == s0.log + [Accepted(m1.Code(), m1.Arg(), rc, result)]
  {
    hide Run, Apply, AtRest, IsAsleep, Message.Code, Message.Arg, Polling2, Took;
    actions := PollBehind(s0, m1, m2);
    actions := AcceptFirst(s0, m1, m2, rc, result, actions);
    TookFields(s0, m1, m2, rc, result);
  }

  lemma TookFields(s0: State, m1: Message, m2: Message, rc: Half, result: Word)
    ensures var s := Took(s0, m1, m2, rc, result);
            && TookReply(s0, s, m1, m2) && s.host.outcome == Ok(Widen(rc), result)
            && s.log == s0.log + [Accepted(m1.Code(), m1.Arg(), rc, result)]
  {
    hide Pending, Raise, Clear, Low16, High16, IsErrorReply, RequestWord, IsSuccessFor, ReplyWord;
    hide Message.Code, Message.Arg;
  }

  /** For any two different messages, the first not the sleep message and the second one waiting:
      a run of just these two in which the second returns the rejection of the abandoned first. */
  lemma StaleRejection(s0: State, m1: Message, m2: Message) returns (actions: seq<Action>)
    requires AtRest(s0) && !IsAsleep(s0.msgReg) && Differ(m1, m2) && m2.wait && m1.Code() != SLEEP
    ensures WrongRejection(s0, Run(s0, actions), m1, m2)
    ensures Run(s0, actions).log == s0.log + [Rejected(m1.Code(), m1.Arg())]
  {
    hide Run, Apply, AtRest, IsAsleep, Message.Code, Message.Arg, Polling2, TookRejection, WrongRejection, Differ;
    actions := PollBehind(s0, m1, m2);
    actions := RejectFirst(s0, m1, m2, actions);
    RejectionFields(s0, m1, m2);
  }

  lemma RejectionFields(s0: State, m1: Message, m2: Message)
    requires Differ(m1, m2)
    ensures WrongRejection(s0, TookRejection(s0, m1, m2), m1, m2)
    ensures TookRejection(s0, m1, m2).log == s0.log + [Rejected(m1.Code(), m1.Arg())]
  {
    hide Pending, Raise, Clear, Low16, High16, IsErrorReply, RequestWord, IsSuccessFor, ReplyWord;
    hide Message.Code, Message.Arg;
  }

  // The second message before the firmware has read the first: it answers the second one early,
  // and then takes its own reply word for a third message.

  function Early2(s0: State, m1: Message, m2: Message): State {
    Left1(s0, m1).(msgReg := RequestWord(m2), retReg := m2.Arg(), host := IntRead(m2))
  }

  function EarlyWork(s0: State, m1: Message, m2: Message): State {
    Early2(s0, m1, m2).(misc := Clear(Raise(s0.misc)), firmware := Work(m2.Code(), m2.Arg()))
  }

  function EarlyPoll(s0: State, m1: Message, m2: Message): State {
    EarlyWork(s0, m1, m2).(misc := Raise(Clear(Raise(s0.misc))), sent := s0.sent + [m1] + [m2], host := Poll(m2))
  }

  function Answered2(s0: State, m1: Message, m2: Message, rc: Half): State {
    EarlyPoll(s0, m1, m2).(
      msgReg := ReplyWord(m2.Code(), rc), firmware := Waiting,
      log := s0.log + [Accepted(m2.Code(), m2.Arg(), rc, m2.Arg())])
  }

  function Misread(s0: State, m1: Message, m2: Message, rc: Half): State {
    Answered2(s0, m1, m2, rc).(
      misc := Clear(Raise(Clear(Raise(s0.misc)))), firmware := Work(Half(0, m2.Code().lo), m2.Arg()))
  }

  function Misled(s0: State, m1: Message, m2: Message, rc: Half, rc': Half): State {
    Misread(s0, m1, m2, rc).(
      msgReg := ReplyWord(Half(0, m2.Code().lo), rc'), firmware := Waiting, source := |s0.log| + 1,
      log := s0.log + [Accepted(m2.Code(), m2.Arg(), rc, m2.Arg())]
             + [Accepted(Half(0, m2.Code().lo), m2.Arg(), rc', m2.Arg())],
      host := Done(m2, Ok(Widen(rc'), m2.Arg())))
  }

  lemma ReplyLow(code: Half, rc: Half)
    ensures Low16(ReplyWord(code, rc)) == Half(0, code.lo)
  {
  }

  lemma PostEarly(s0: State, m1: Message, m2: Message, done: seq<Action>) returns (actions: seq<Action>)
    requires AtRest(s0) && Run(s0, done) == Left1(s0, m1) && m1.Code() != SLEEP
    ensures Run(s0, actions) == Early2(s0, m1, m2)
  {
    hide Pending, Raise, Clear, Low16, High16, IsErrorReply, RequestWord, IsSuccessFor, ReplyWord;
    hide Message.Code, Message.Arg, Run, Paired;
    RequestReads(m1);
    actions := done;
    actions := Extend(s0, actions, Send(m2));
    actions := Extend(s0, actions, HostStep);
    actions := Extend(s0, actions, HostStep);
    actions := Extend(s0, actions, HostStep);
  }

  lemma WorkEarly(s0: State, m1: Message, m2: Message, done: seq<Action>) returns (actions: seq<Action>)
    requires AtRest(s0) && Run(s0, done) == Early2(s0, m1, m2)
    ensures Run(s0, actions) == EarlyWork(s0, m1, m2)
  {
    hide Pending, Raise, Clear, Low16, High16, IsErrorReply, RequestWord, IsSuccessFor, ReplyWord;
    hide Message.Code, Message.Arg, Run, Paired, IsAsleep;
    RaiseAndClear(s0.misc);
    RequestReads(m2);
    actions := done;
    actions := Extend(s0, actions, FirmwareStep);
    actions := Extend(s0, actions, FirmwareStep);
    actions := Extend(s0, actions, FirmwareStep);
  }

  lemma RaiseEarly(s0: State, m1: Message, m2: Message, done: seq<Action>) returns (actions: seq<Action>)
    requires Run(s0, done) == EarlyWork(s0, m1, m2) && m2.wait
    ensures Run(s0, actions) == EarlyPoll(s0, m1, m2)
  {
    hide Pending, Raise, Clear, Low16, High16, IsErrorReply, RequestWord, IsSuccessFor, ReplyWord;
    hide Message.Code, Message.Arg, Run, Paired, IsAsleep;
    RaiseAndClear(Raise(s0.misc));
    actions := done;
    actions := Extend(s0, actions, HostStep);
    actions := Extend(s0, actions, HostStep);
  }

  lemma AnswerEarly(s0: State, m1: Message, m2: Message, rc: Half, done: seq<Action>) returns (actions: seq<Action>)
    requires Run(s0, done) == EarlyPoll(s0, m1, m2)
    ensures Run(s0, actions) == Answered2(s0, m1, m2, rc)
  {
    hide Pending, Raise, Clear, Low16, High16, IsErrorReply, RequestWord, IsSuccessFor, ReplyWord;
    hide Message.Code, Message.Arg, Run, Paired, IsAsleep;
    actions := done;
    actions := Extend(s0, actions, Accept(rc, m2.Arg()));
    actions := Extend(s0, actions, FirmwareStep);
  }

  lemma ReadOwnReply(s0: State, m1: Message, m2: Message, rc: Half, done: seq<Action>) returns (actions: seq<Action>)
    requires Run(s0, done) == Answered2(s0, m1, m2, rc)
    ensures Run(s0, actions) == Misread(s0, m1, m2, rc)
  {
    hide Pending, Raise, Clear, Low16, High16, IsErrorReply, RequestWord, IsSuccessFor, ReplyWord;
    hide Message.Code, Message.Arg, Run, Paired, IsAsleep;
    RaiseAndClear(Clear(Raise(s0.misc)));
    ReplyLow(m2.Code(), rc);
    actions := done;
    actions := Extend(s0, actions, FirmwareStep);
    actions := Extend(s0, actions, FirmwareStep);
    actions := Extend(s0, actions, FirmwareStep);
  }

  lemma Mislead(s0: State, m1: Message, m2: Message, rc: Half, rc': Half, done: seq<Action>)
    returns (actions: seq<Action>)
    requires Run(s0, done) == Misread(s0, m1, m2, rc)
    ensures Run(s0, actions) == Misled(s0, m1, m2, rc, rc')
  {
    hide Pending, Raise, Clear, Low16, High16, IsErrorReply, RequestWord, IsSuccessFor, ReplyWord;
    hide Message.Code, Message.Arg, Run, Paired, IsAsleep;
    ReplyWordReads(Half(0, m2.Code().lo), m2, rc');
    actions := done;
    actions := Extend(s0, actions, Accept(rc', m2.Arg()));
    actions := Extend(s0, actions, FirmwareStep);
    actions := Extend(s0, actions, HostStep);
    actions := Extend(s0, actions, HostStep);
  }

  /** For any two messages, the first not the sleep message and the second one waiting: a run of
      just these two in which the second returns an Ok that no reply to it says. */
  lemma FalseOk(s0: State, m1: Message, m2: Message) returns (actions: seq<Action>)
    requires AtRest(s0) && !IsAsleep(s0.msgReg) && m2.wait && m1.Code() != SLEEP
    ensures WrongOk(s0, Run(s0, actions), m1, m2)
  {
    hide Run, Apply, AtRest, IsAsleep, Message.Code, Message.Arg, WrongOk;
    hide Posted1, Left1, Early2, EarlyWork, EarlyPoll, Answered2, Misread, Misled;
    actions := PostFirst(s0, m1);
    actions := LeaveFirst(s0, m1, actions);
    actions := PostEarly(s0, m1, m2, actions);
    actions := WorkEarly(s0, m1, m2, actions);
    actions := RaiseEarly(s0, m1, m2, actions);
    actions := AnswerEarly(s0, m1, m2, Half(0, 0), actions);
    actions := ReadOwnReply(s0, m1, m2, Half(0, 0), actions);
    actions := Mislead(s0, m1, m2, Half(0, 0), Half(0, 1), actions);
    MisledFields(s0, m1, m2);
  }

  lemma MisledFields(s0: State, m1: Message, m2: Message)
    ensures WrongOk(s0, Misled(s0, m1, m2, Half(0, 0), Half(0, 1)), m1, m2)
  {
    hide Pending, Raise, Clear, Low16, High16, IsErrorReply, RequestWord, IsSuccessFor, ReplyWord, Or;
    OrNotZero(m2.short.hi);
  }

  // ------------------------------------------------------- exactly when

  /** When a message can end with an Ok that is not what a reply to it says, after a different one,
      over any number of replies: exactly when it waits and the other is not the sleep message. */
  lemma WrongOkIff(s0: State, m1: Message, m2: Message)
    requires AtRest(s0) && !IsAsleep(s0.msgReg)
    ensures (exists actions :: WrongOk(s0, Run(s0, actions), m1, m2)) <==> m2.wait && m1.Code() != SLEEP
  {
    hide Run, AtRest, IsAsleep, Message.Code, ReadFrom, Reports;
    if m2.wait && m1.Code() != SLEEP {
      var actions := FalseOk(s0, m1, m2);
      assert WrongOk(s0, Run(s0, actions), m1, m2);
    }
    if exists actions :: WrongOk(s0, Run(s0, actions), m1, m2) {
      var actions :| WrongOk(s0, Run(s0, actions), m1, m2);
      ResultIsSomeReply(s0, actions);
      if m1.Code() == SLEEP {
        AfterSleepRight(s0, actions, m1, m2);
      }
    }
  }

  /** The same for a rejection. */
  lemma WrongRejectionIff(s0: State, m1: Message, m2: Message)
    requires AtRest(s0) && !IsAsleep(s0.msgReg) && Differ(m1, m2)
    ensures (exists actions :: WrongRejection(s0, Run(s0, actions), m1, m2)) <==> m2.wait && m1.Code() != SLEEP
  {
    hide Run, AtRest, IsAsleep, Message.Code, ReadFrom, Reports, Differ;
    if m2.wait && m1.Code() != SLEEP {
      var actions := StaleRejection(s0, m1, m2);
      assert WrongRejection(s0, Run(s0, actions), m1, m2);
    }
    if exists actions :: WrongRejection(s0, Run(s0, actions), m1, m2) {
      var actions :| WrongRejection(s0, Run(s0, actions), m1, m2);
      ResultIsSomeReply(s0, actions);
      if m1.Code() == SLEEP {
        AfterSleepRight(s0, actions, m1, m2);
      }
    }
  }

  /** When the Ok of a message can be read from the reply to a different one, over any number of
      replies: exactly when moreover the low code bytes agree. */
  lemma TookReplyIff(s0: State, m1: Message, m2: Message)
    requires AtRest(s0) && !IsAsleep(s0.msgReg) && Differ(m1, m2)
    ensures (exists actions :: TookReply(s0, Run(s0, actions), m1, m2))
            <==> m2.wait && m1.Code() != SLEEP && m1.Code().lo == m2.Code().lo
  {
    hide Run, AtRest, IsAsleep, Message.Code, Message.Arg;
    if m2.wait && m1.Code() != SLEEP && m1.Code().lo == m2.Code().lo {
      var actions := StaleReply(s0, m1, m2, Half(0, 0), m1.Arg());
      assert TookReply(s0, Run(s0, actions), m1, m2);
    }
    if exists actions :: TookReply(s0, Run(s0, actions), m1, m2) {
      var actions :| TookReply(s0, Run(s0, actions), m1, m2);
      ResultIsSomeReply(s0, actions);
      if m1.Code() == SLEEP {
        AfterSleepRight(s0, actions, m1, m2);
      }
    }
  }
}
