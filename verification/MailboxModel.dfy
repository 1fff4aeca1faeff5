/** The single-slot ARC mailbox of Wormhole (Grayskull's is a copy): two scratch registers and an
    interrupt bit shared with the firmware. The firmware is an assumption: it wakes on the
    interrupt, clears it, reads the message and its argument, writes the return register and
    only then the reply word. */
module MailboxModel {
  import opened Bits

  /** A 32-bit register value as its two halves, a half as its two bytes, most significant first. */
  datatype Word = Word(hi: Half, lo: Half)

  datatype Half = Half(hi: bv8, lo: bv8)

  /** A message by its 16-bit number (any number, for a raw message) and its two arguments. */
  datatype Message = Message(short: Half, arg0: Half, arg1: Half, wait: bool)
  {
    /** The number with 0xaa00 or-ed in. */
    function Code(): Half {
      Half(Or(0xaa, short.hi), short.lo)
    }

    function Arg(): Word {
      Word(arg1, arg0)
    }
  }

  datatype Outcome = Ok(rc: Word, arg: Word) | OkNoWait | ArcAsleep | FwIntFailed | MsgNotRecognized | TimedOut

  datatype Host =
    | Idle
    | ReadCurrent(msg: Message)
    | WriteArg(msg: Message)
    | WriteCode(msg: Message)
    | IntRead(msg: Message)
    | IntWrite(msg: Message, misc: Word)
    | Poll(msg: Message)
    | ReadReturn(msg: Message, rc: Word)
    | Done(msg: Message, outcome: Outcome)

  datatype Firmware =
    | Waiting
    | GetCode
    | GetArg(code: Half)
    | Work(code: Half, arg: Word)
    | Answer(code: Half, arg: Word, rc: Half, result: Word)

  /** What the firmware did with one message. */
  datatype Reply = Accepted(code: Half, arg: Word, rc: Half, result: Word) | Rejected(code: Half, arg: Word)

  /** `sent` records the messages whose interrupt was raised, `log` the replies, and `source` is the
      number of the reply that the last poll to end had read. `spoiled` is set once a message other
      than the sleep message was sent and its reply not waited for. */
  datatype State = State(
    msgReg: Word, retReg: Word, misc: Word, host: Host, firmware: Firmware,
    sent: seq<Message>, log: seq<Reply>, source: nat, spoiled: bool)

  datatype Action =
    | Send(msg: Message)
    | HostStep
    | GiveUp
    | Return
    | FirmwareStep
    | Reject
    | Accept(rc: Half, result: Word)

  function Low16(w: Word): Half {
    w.lo
  }

  function Widen(h: Half): Word {
    Word(Half(0, 0), h)
  }

  function High16(w: Word): Word {
    Widen(w.hi)
  }

  /** The interrupt is bit 16 of the miscellaneous control register. */
  predicate Pending(misc: Word) {
    And(misc.hi.lo, 1) != 0
  }

  function Raise(misc: Word): Word {
    misc.(hi := misc.hi.(lo := Or(misc.hi.lo, 1)))
  }

  function Clear(misc: Word): Word {
    misc.(hi := misc.hi.(lo := And(misc.hi.lo, 0xfe)))
  }

  /** The number of the message that sends the firmware to sleep. */
  const SLEEP := Half(0xaa, 0x55)

  predicate IsAsleep(w: Word) {
    Low16(w) == SLEEP
  }

  const ERROR_REPLY := Word(Half(0xff, 0xff), Half(0xff, 0xff))

  predicate IsErrorReply(w: Word) {
    w == ERROR_REPLY
  }

  function RequestWord(m: Message): Word {
    Widen(m.Code())
  }

  predicate IsSuccessFor(m: Message, w: Word) {
    Low16(w) == Half(0, m.Code().lo)
  }

  function ReplyWord(code: Half, rc: Half): Word {
    Word(rc, Half(0, code.lo))
  }

  function LastReply(s: State): nat {
    if s.log == [] then 0 else |s.log| - 1
  }

  predicate Spoils(s: State, m: Message) {
    s.spoiled || m.Code() != SLEEP
  }

  function HostNext(s: State): State {
    match s.host
    case ReadCurrent(m) => s.(host := if IsAsleep(s.msgReg) then Done(m, ArcAsleep) else WriteArg(m))
    case WriteArg(m) => s.(retReg := m.Arg(), host := WriteCode(m))
    case WriteCode(m) => s.(msgReg := RequestWord(m), host := IntRead(m))
    case IntRead(m) =>
      s.(host := if Pending(s.misc) then Done(m, FwIntFailed) else IntWrite(m, s.misc))
    case IntWrite(m, misc) =>
      var raised := s.(misc := Raise(misc), sent := s.sent + [m]);
      if m.wait then raised.(host := Poll(m)) else raised.(host := Done(m, OkNoWait), spoiled := Spoils(s, m))
    case Poll(m) =>
      if IsSuccessFor(m, s.msgReg) then s.(host := ReadReturn(m, High16(s.msgReg)), source := LastReply(s))
      else if IsErrorReply(s.msgReg) then s.(host := Done(m, MsgNotRecognized), source := LastReply(s))
      else s
    case ReadReturn(m, rc) => s.(host := Done(m, Ok(rc, s.retReg)))
    case _ => s
  }

  function FirmwareNext(s: State): State {
    match s.firmware
    case Waiting => if Pending(s.misc) then s.(misc := Clear(s.misc), firmware := GetCode) else s
    case GetCode => s.(firmware := GetArg(Low16(s.msgReg)))
    case GetArg(code) => s.(firmware := Work(code, s.retReg))
    case Answer(code, arg, rc, result) =>
      s.(msgReg := ReplyWord(code, rc), firmware := Waiting, log := s.log + [Accepted(code, arg, rc, result)])
    case _ => s
  }

  function Apply(s: State, a: Action): State {
    match a
    case Send(m) => if s.host.Idle? then s.(host := ReadCurrent(m)) else s
    case HostStep => HostNext(s)
    case GiveUp => if s.host.Poll? then s.(host := Done(s.host.msg, TimedOut), spoiled := Spoils(s, s.host.msg)) else s
    case Return => if s.host.Done? then s.(host := Idle) else s
    case FirmwareStep => FirmwareNext(s)
    case Reject =>
      if s.firmware.Work? then
        s.(msgReg := ERROR_REPLY, firmware := Waiting, log := s.log + [Rejected(s.firmware.code, s.firmware.arg)])
      else s
    case Accept(rc, result) =>
      if s.firmware.Work? then
        s.(retReg := result, firmware := Answer(s.firmware.code, s.firmware.arg, rc, result))
      else s
  }

  function Run(s: State, actions: seq<Action>): State
    decreases |actions|
  {
    if actions == [] then s else Run(Apply(s, actions[0]), actions[1..])
  }

  // ------------------------------------------------------- the words on the wire

  lemma OrNotZero(x: bv8)
    ensures Or(0xaa, x) != 0
  {
  }

  /** The host's own request word passes neither the success nor the error test, whatever the
      message, so a poll never mistakes it for a reply. */
  lemma RequestIsNotAReply(m: Message)
    ensures !IsSuccessFor(m, RequestWord(m)) && !IsErrorReply(RequestWord(m))
    ensures Low16(RequestWord(m)) == m.Code()
  {
    OrNotZero(m.short.hi);
  }

  /** A success reply passes the success test of exactly the messages with its own low code byte,
      decodes to its return code, and never looks like the error reply or the sleep code. */
  lemma ReplyWordReads(code: Half, m: Message, rc: Half)
    ensures IsSuccessFor(m, ReplyWord(code, rc)) <==> m.Code().lo == code.lo
    ensures !IsErrorReply(ReplyWord(code, rc)) && !IsAsleep(ReplyWord(code, rc))
    ensures High16(ReplyWord(code, rc)) == Widen(rc)
  {
  }

  lemma ErrorIsNotSuccess(m: Message, w: Word)
    requires IsErrorReply(w)
    ensures !IsSuccessFor(m, w) && !IsAsleep(w)
  {
  }

  lemma RaiseBits(x: bv8)
    ensures And(Or(x, 1), 1) != 0 && And(And(x, 0xfe), 1) == 0
    ensures And(Or(x, 1), 0xfe) == And(x, 0xfe)
    ensures And(x, 1) == 0 ==> And(x, 0xfe) == x
  {
  }

  /** Raising sets one bit and keeps the others; clearing undoes it. */
  lemma RaiseAndClear(misc: Word)
    ensures Pending(Raise(misc)) && !Pending(Clear(misc))
    ensures Clear(Raise(misc)) == Clear(misc)
    ensures !Pending(misc) ==> Clear(misc) == misc
  {
    RaiseBits(misc.hi.lo);
  }

  lemma RequestReads(m: Message)
    ensures Low16(RequestWord(m)) == m.Code()
    ensures IsAsleep(RequestWord(m)) <==> m.Code() == SLEEP
    ensures !IsSuccessFor(m, RequestWord(m)) && !IsErrorReply(RequestWord(m))
  {
    hide Or;
    RequestIsNotAReply(m);
  }

  // ------------------------------------------------------- the invariant

  predicate Answers(r: Reply, m: Message) {
    r.code == m.Code() && r.arg == m.Arg()
  }

  /** Reply number k answers message number k. */
  predicate Paired(s: State) {
    |s.log| <= |s.sent| && forall k :: 0 <= k < |s.log| ==> Answers(s.log[k], s.sent[k])
  }

  /** Nothing is under way on the firmware's side, and every message sent has been answered. */
  predicate Quiet(s: State) {
    s.firmware.Waiting? && !Pending(s.misc) && |s.log| == |s.sent|
  }

  /** A mailbox before a message, with nothing left over from earlier ones. */
  predicate AtRest(s: State) {
    Quiet(s) && Paired(s) && s.host.Idle? && !s.spoiled
  }

  /** Message `m` is the last one sent. */
  predicate IsLast(s: State, m: Message) {
    s.sent != [] && s.sent[|s.sent| - 1] == m
  }

  /** The firmware has answered message `m`, the last one sent, and the registers hold the answer. */
  predicate Answered(s: State, m: Message) {
    && Quiet(s) && s.log != []
    && match s.log[|s.log| - 1]
       case Accepted(code, arg, rc, result) =>
         code == m.Code() && arg == m.Arg() && s.msgReg == ReplyWord(code, rc) && s.retReg == result
       case Rejected(code, arg) => code == m.Code() && arg == m.Arg() && IsErrorReply(s.msgReg)
  }

  /** The firmware is working on message `m`, somewhere between the interrupt and the reply. */
  predicate InProgress(s: State, m: Message) {
    && s.msgReg == RequestWord(m) && |s.log| + 1 == |s.sent|
    && match s.firmware
       case Waiting => Pending(s.misc) && s.retReg == m.Arg()
       case GetCode => !Pending(s.misc) && s.retReg == m.Arg()
       case GetArg(code) => !Pending(s.misc) && code == m.Code() && s.retReg == m.Arg()
       case Work(code, arg) => !Pending(s.misc) && code == m.Code() && arg == m.Arg()
       case Answer(code, arg, _, result) => !Pending(s.misc) && code == m.Code() && arg == m.Arg() && s.retReg == result
  }

  /** The firmware still works on a sleep message that nobody waits for. Its number stays in the
      message register, and keeps every other message out. */
  predicate Sleeping(s: State) {
    s.sent != [] && s.sent[|s.sent| - 1].Code() == SLEEP && InProgress(s, s.sent[|s.sent| - 1])
  }

  predicate Resting(s: State) {
    Quiet(s) || Sleeping(s)
  }

  /** As long as no message but the sleep message was abandoned, the mailbox serves one message at
      a time and an outcome reports the reply to its own message. */
  predicate Inv(s: State) {
    !s.spoiled ==> Paired(s) && Serving(s)
  }

  predicate Serving(s: State) {
    match s.host
    case Idle => Resting(s)
    case ReadCurrent(_) => Resting(s)
    case WriteArg(_) => Quiet(s)
    case WriteCode(m) => Quiet(s) && s.retReg == m.Arg()
    case IntRead(m) => Quiet(s) && s.retReg == m.Arg() && s.msgReg == RequestWord(m)
    case IntWrite(m, misc) => Quiet(s) && s.retReg == m.Arg() && s.msgReg == RequestWord(m) && misc == s.misc
    case Poll(m) => IsLast(s, m) && (InProgress(s, m) || Answered(s, m))
    case ReadReturn(m, rc) =>
      && IsLast(s, m) && Answered(s, m) && s.source == |s.log| - 1
      && s.log[s.source].Accepted? && rc == Widen(s.log[s.source].rc)
    case Done(m, outcome) => Resting(s) && OutcomeMatches(s, m, outcome)
  }

  /** The outcome reports a reply: the reply is to message `m`, and says just this. */
  predicate Reports(r: Reply, m: Message, outcome: Outcome) {
    && Answers(r, m)
    && match outcome
       case Ok(rc, arg) => r.Accepted? && rc == Widen(r.rc) && arg == r.result
       case MsgNotRecognized => r.Rejected?
       case _ => false
  }

  /** The outcome of the message just sent is what its own reply says, that of the same number; only
      the sleep message may go without one, and the interrupt never fails. */
  predicate OutcomeMatches(s: State, m: Message, outcome: Outcome) {
    match outcome
    case ArcAsleep => true
    case FwIntFailed => false
    case OkNoWait => m.Code() == SLEEP
    case TimedOut => m.Code() == SLEEP
    case _ => IsLast(s, m) && |s.log| == |s.sent| && s.source == |s.log| - 1 && Reports(s.log[s.source], m, outcome)
  }

  /** Every message sent has been answered, unless the last one is the sleep message. */
  predicate AnsweredButSleep(s: State) {
    |s.log| == |s.sent| || (s.sent != [] && s.sent[|s.sent| - 1].Code() == SLEEP)
  }

  // ------------------------------------------------------- safety

  lemma PairedSend(s: State, m: Message)
    requires Paired(s)
    ensures Paired(s.(sent := s.sent + [m]))
  {
  }

  lemma PairedReply(s: State, r: Reply)
    requires Paired(s) && |s.log| < |s.sent| && Answers(r, s.sent[|s.log|])
    ensures Paired(s.(log := s.log + [r]))
  {
  }

  lemma PairedIgnores(s: State, t: State)
    requires Paired(s) && s.sent == t.sent && s.log == t.log
    ensures Paired(t)
  {
  }

  lemma HostKeeps(s: State)
    requires Inv(s) && !s.host.Poll?
    ensures Inv(HostNext(s))
  {
    hide Pending, Raise, Clear, Low16, High16, IsErrorReply, RequestWord, IsSuccessFor, ReplyWord;
    hide Message.Code, Message.Arg, Paired;
    if !s.spoiled {
      if s.host.IntWrite? {
        RaiseAndClear(s.host.misc);
        PairedSend(s, s.host.msg);
        PairedIgnores(s.(sent := s.sent + [s.host.msg]), HostNext(s));
      } else {
        PairedIgnores(s, HostNext(s));
        if s.host.ReadCurrent? && Sleeping(s) {
          RequestReads(s.sent[|s.sent| - 1]);
        }
      }
    }
  }

  lemma PollKeeps(s: State)
    requires Inv(s) && s.host.Poll?
    ensures Inv(HostNext(s))
  {
    hide Pending, Raise, Clear, Low16, High16, IsErrorReply, RequestWord, IsSuccessFor, ReplyWord;
    hide Message.Code, Message.Arg, IsAsleep, Paired;
    var m := s.host.msg;
    if !s.spoiled {
      PairedIgnores(s, HostNext(s));
      RequestIsNotAReply(m);
      if Answered(s, m) {
        if s.log[|s.log| - 1].Accepted? {
          ReplyWordReads(m.Code(), m, s.log[|s.log| - 1].rc);
        } else {
          ErrorIsNotSuccess(m, s.msgReg);
        }
      }
    }
  }

  /** The firmware brings a message in progress nearer to its answer, and leaves a quiet mailbox. */
  lemma FirmwareServes(s: State, m: Message)
    requires InProgress(s, m) && IsLast(s, m)
    ensures var t := FirmwareNext(s); IsLast(t, m) && (InProgress(t, m) || Answered(t, m))
  {
    hide Pending, Raise, Clear, Low16, High16, IsErrorReply, RequestWord, IsSuccessFor, ReplyWord;
    hide Message.Code, Message.Arg, IsAsleep;
    RaiseAndClear(s.misc);
    RequestReads(m);
  }

  lemma FirmwareRests(s: State)
    requires Quiet(s)
    ensures FirmwareNext(s) == s
  {
    hide Pending, Raise, Clear, Low16, High16, IsErrorReply, RequestWord, IsSuccessFor, ReplyWord;
    hide Message.Code, Message.Arg, IsAsleep;
  }

  lemma FirmwarePairs(s: State, m: Message)
    requires Paired(s) && IsLast(s, m) && InProgress(s, m)
    ensures Paired(FirmwareNext(s))
  {
    hide Pending, Raise, Clear, Low16, High16, IsErrorReply, RequestWord, IsSuccessFor, ReplyWord;
    hide Message.Code, Message.Arg, IsAsleep, Paired;
    if s.firmware.Answer? {
      var r := Accepted(s.firmware.code, s.firmware.arg, s.firmware.rc, s.firmware.result);
      PairedReply(s, r);
      PairedIgnores(s.(log := s.log + [r]), FirmwareNext(s));
    } else {
      PairedIgnores(s, FirmwareNext(s));
    }
  }

  /** What the firmware's steps do not touch. */
  lemma FirmwareFrame(s: State)
    ensures var t := FirmwareNext(s);
            t.host == s.host && t.sent == s.sent && t.source == s.source && t.spoiled == s.spoiled
  {
    hide Pending, Clear, Low16, ReplyWord;
  }

  lemma FirmwareKeeps(s: State)
    requires Inv(s)
    ensures Inv(FirmwareNext(s))
  {
    hide FirmwareNext, InProgress, Quiet, Paired, Answered, Reports, RequestWord, Pending, Message.Code, Message.Arg;
    FirmwareFrame(s);
    if !s.spoiled {
      if Quiet(s) {
        FirmwareRests(s);
      } else {
        PollNotQuiet(s);
        var m := s.sent[|s.sent| - 1];
        FirmwareServes(s, m);
        FirmwarePairs(s, m);
        AnsweredQuiet(FirmwareNext(s), m);
        MatchOutsideQuiet(s);
      }
    }
  }

  /** When the mailbox serves and is not quiet, the last message sent is in progress. */
  lemma PollNotQuiet(s: State)
    requires Serving(s) && !Quiet(s)
    ensures s.sent != [] && InProgress(s, s.sent[|s.sent| - 1])
    ensures s.host.Idle? || s.host.ReadCurrent? || s.host.Done? || s.host.Poll?
  {
    hide InProgress, Pending, RequestWord, Reports, Message.Code, Message.Arg;
  }

  lemma AnsweredQuiet(s: State, m: Message)
    ensures Answered(s, m) ==> Quiet(s)
  {
  }

  /** Only a sleep message is in progress behind an outcome, and no outcome reports its reply. */
  lemma MatchOutsideQuiet(s: State)
    requires Serving(s) && !Quiet(s)
    ensures s.host.Done? ==> s.host.outcome.ArcAsleep? || s.host.outcome.OkNoWait? || s.host.outcome.TimedOut?
    ensures s.host.Idle? || s.host.ReadCurrent? || s.host.Done? ==> s.sent[|s.sent| - 1].Code() == SLEEP
  {
    hide Pending, RequestWord, Reports, Message.Code, Message.Arg;
  }

  lemma DecisionKeeps(s: State, a: Action)
    requires Inv(s) && (a.Reject? || a.Accept?)
    ensures Inv(Apply(s, a))
  {
    hide Pending, Raise, Clear, Low16, High16, IsErrorReply, RequestWord, IsSuccessFor, ReplyWord;
    hide Message.Code, Message.Arg, IsAsleep, Paired, HostNext, FirmwareNext, Reports;
    ErrorReply();
    if !s.spoiled && s.firmware.Work? {
      MatchOutsideQuiet(s);
      if a.Reject? {
        var r := Rejected(s.firmware.code, s.firmware.arg);
        PairedReply(s, r);
        PairedIgnores(s.(log := s.log + [r]), Apply(s, a));
      } else {
        PairedIgnores(s, Apply(s, a));
      }
    }
  }

  lemma ErrorReply()
    ensures IsErrorReply(ERROR_REPLY)
  {
  }

  lemma CallerKeeps(s: State, a: Action)
    requires Inv(s) && (a.Send? || a.GiveUp? || a.Return?)
    ensures Inv(Apply(s, a))
  {
    hide Pending, Raise, Clear, Low16, High16, IsErrorReply, RequestWord, IsSuccessFor, ReplyWord;
    hide Message.Code, Message.Arg, IsAsleep, Paired, HostNext, FirmwareNext, Reports;
    if !s.spoiled {
      PairedIgnores(s, Apply(s, a));
    }
  }

  lemma ActionKeeps(s: State, a: Action)
    requires Inv(s)
    ensures Inv(Apply(s, a))
  {
    hide Inv, HostNext, FirmwareNext;
    match a
    case HostStep => if s.host.Poll? { PollKeeps(s); } else { HostKeeps(s); }
    case FirmwareStep => FirmwareKeeps(s);
    case Reject => DecisionKeeps(s, a);
    case Accept(_, _) => DecisionKeeps(s, a);
    case _ => CallerKeeps(s, a);
  }

  lemma {:induction false} RunKeeps(s: State, actions: seq<Action>)
    requires Inv(s)
    ensures Inv(Run(s, actions))
    decreases |actions|
  {
    hide Inv, Apply;
    if actions != [] {
      ActionKeeps(s, actions[0]);
      RunKeeps(Apply(s, actions[0]), actions[1..]);
    }
  }

  lemma RestStarts(s: State)
    requires AtRest(s)
    ensures Inv(s)
  {
    hide Paired, Pending;
  }

  /** In every run from a mailbox at rest in which no message but the sleep message was abandoned:
      reply number k answers message number k; a message that ends with Ok or a rejection is the
      last one sent and its outcome is what the reply with its own number says; and every message
      has been answered, unless the last one is the sleep message. */
  lemma ReplyIsToThisMessage(s0: State, actions: seq<Action>)
    requires AtRest(s0)
    ensures var s := Run(s0, actions);
            !s.spoiled ==>
              && Paired(s)
              && (s.host.Done? ==> OutcomeMatches(s, s.host.msg, s.host.outcome))
              && (s.host.Idle? || s.host.Done? ==> AnsweredButSleep(s))
  {
    hide OutcomeMatches, Paired, Run, Pending, RequestWord, Message.Code, Message.Arg;
    RestStarts(s0);
    RunKeeps(s0, actions);
  }

  /** And the interrupt never fails: no run without an abandoned message other than the sleep
      message comes to a failed interrupt, and none is one step away from it. */
  lemma InterruptNeverFails(s0: State, actions: seq<Action>, a: Action)
    requires AtRest(s0) && !Run(s0, actions).spoiled
    ensures var s, t := Run(s0, actions), Apply(Run(s0, actions), a);
            && !(s.host.Done? && s.host.outcome.FwIntFailed?)
            && !(t.host.Done? && t.host.outcome.FwIntFailed?)
  {
    hide Paired, Run, RequestWord, InProgress, Answered, Reports, IsSuccessFor, IsErrorReply, High16, FirmwareNext;
    hide Message.Code, Message.Arg;
    RestStarts(s0);
    RunKeeps(s0, actions);
    FirmwareFrame(Run(s0, actions));
  }

  // ------------------------------------------------------- runs step by step

  lemma {:induction false} RunThen(s0: State, actions: seq<Action>, a: Action)
    ensures Run(s0, actions + [a]) == Apply(Run(s0, actions), a)
    decreases |actions|
  {
    hide Apply;
    if actions == [] {
      assert ([] + [a])[1..] == [];
      assert Run(Apply(s0, a), []) == Apply(s0, a);
      assert [] + [a] == [a];
    } else {
      assert (actions + [a])[1..] == actions[1..] + [a];
      RunThen(Apply(s0, actions[0]), actions[1..], a);
    }
  }

  lemma Extend(s0: State, actions: seq<Action>, a: Action) returns (longer: seq<Action>)
    ensures longer == actions + [a] && Run(s0, longer) == Apply(Run(s0, actions), a)
  {
    longer := actions + [a];
    RunThen(s0, actions, a);
  }

  lemma RunNothing(s: State)
    ensures Run(s, []) == s
  {
  }
}
