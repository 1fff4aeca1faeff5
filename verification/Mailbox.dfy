/** The host's side of the ARC mailbox as code: every register access lets the firmware run first
    and is one step of MailboxModel. */
module Mailbox {
  import opened MailboxModel

  predicate FirmwareActions(batch: seq<Action>) {
    forall i :: 0 <= i < |batch| ==> batch[i].FirmwareStep? || batch[i].Reject? || batch[i].Accept?
  }

  lemma {:induction false} FirmwareKeepsHost(s: State, batch: seq<Action>)
    requires FirmwareActions(batch)
    ensures var t := Run(s, batch);
            t.host == s.host && t.spoiled == s.spoiled && t.sent == s.sent && s.log <= t.log
    decreases |batch|
  {
    if batch != [] {
      hide Pending, Raise, Clear, ReplyWord;
      FirmwareKeepsHost(Apply(s, batch[0]), batch[1..]);
    }
  }

  class ArcMailbox {
    var s: State
    /** What the firmware is going to do before each coming register access. */
    var script: seq<seq<Action>>
    /** How many accesses the host has made. */
    ghost var accesses: nat

    ghost predicate Valid()
      reads this
    {
      Inv(s) && forall i :: 0 <= i < |script| ==> FirmwareActions(script[i])
    }

    constructor (s: State, script: seq<seq<Action>>)
      requires AtRest(s)
      requires forall i :: 0 <= i < |script| ==> FirmwareActions(script[i])
      ensures this.s == s && this.script == script && Valid()
    {
      this.s, this.script, this.accesses := s, script, 0;
    }

    method LetFirmwareRun()
      requires Valid()
      modifies this`s, this`script
      ensures Valid() && s.host == old(s.host) && s.spoiled == old(s.spoiled)
      ensures s.sent == old(s.sent) && old(s.log) <= s.log
    {
      hide Inv, Run;
      if script != [] {
        RunKeeps(s, script[0]);
        FirmwareKeepsHost(s, script[0]);
        s := Run(s, script[0]);
        script := script[1..];
      }
    }

    /** The access the host is about to make, after the firmware has had its turn; `mid` is the
        state in which it takes effect. */
    method Access() returns (ghost mid: State)
      requires Valid()
      modifies this
      ensures Valid() && Inv(mid) && s == HostNext(mid)
      ensures mid.host == old(s.host) && mid.spoiled == old(s.spoiled)
      ensures mid.sent == old(s.sent) && old(s.log) <= mid.log
      ensures accesses == old(accesses) + 1
    {
      hide Inv, HostNext;
      accesses := accesses + 1;
      LetFirmwareRun();
      mid := s;
      ActionKeeps(s, HostStep);
      s := HostNext(s);
    }

    method ReadMsgReg() returns (value: Word, ghost mid: State)
      requires Valid() && (s.host.ReadCurrent? || s.host.Poll?)
      modifies this
      ensures Valid() && Inv(mid) && s == HostNext(mid) && value == mid.msgReg
      ensures mid.host == old(s.host) && mid.spoiled == old(s.spoiled)
      ensures mid.sent == old(s.sent) && old(s.log) <= mid.log
      ensures accesses == old(accesses) + 1
    {
      hide Inv, IsAsleep, IsSuccessFor, IsErrorReply, High16;
      mid := Access();
      value := s.msgReg;
    }

    method ReadReturnReg() returns (value: Word, ghost mid: State)
      requires Valid() && s.host.ReadReturn?
      modifies this
      ensures Valid() && Inv(mid) && s == HostNext(mid) && value == mid.retReg
      ensures mid.host == old(s.host) && mid.spoiled == old(s.spoiled)
      ensures mid.sent == old(s.sent) && old(s.log) <= mid.log
      ensures accesses == old(accesses) + 1
    {
      hide Inv;
      mid := Access();
      value := s.retReg;
    }

    method WriteReg(value: Word)
      requires Valid()
      requires match s.host
               case WriteArg(m) => value == m.Arg()
               case WriteCode(m) => value == RequestWord(m)
               case _ => false
      modifies this
      ensures Valid()
      ensures s.host == if old(s.host).WriteArg? then WriteCode(old(s.host.msg)) else IntRead(old(s.host.msg))
      ensures if old(s.host).WriteArg? then s.retReg == value else s.msgReg == value
      ensures s.spoiled == old(s.spoiled) && s.sent == old(s.sent) && old(s.log) <= s.log
      ensures accesses == old(accesses) + 1
    {
      hide Inv, Message.Arg, RequestWord;
      var _ := Access();
    }

    /** True exactly when no earlier interrupt was pending in `mid`, the state that its read found;
        then the interrupt is raised. */
    method TriggerFwInt() returns (raised: bool, ghost mid: State)
      requires Valid() && s.host.IntRead?
      modifies this
      ensures Valid() && old(s.log) <= s.log
      ensures raised == !Pending(mid.misc)
      ensures Inv(mid) && mid.host == old(s.host) && mid.spoiled == old(s.spoiled) && mid.sent == old(s.sent)
      ensures old(s.log) <= mid.log <= s.log
      ensures s.sent == if raised then old(s.sent) + [old(s.host.msg)] else old(s.sent)
      ensures s.host == if !raised then Done(old(s.host.msg), FwIntFailed)
                        else if old(s.host.msg.wait) then Poll(old(s.host.msg))
                        else Done(old(s.host.msg), OkNoWait)
      ensures s.spoiled == (old(s.spoiled) || (s.host.Done? && raised && old(s.host.msg).Code() != SLEEP))
      ensures accesses == old(accesses) + (if raised then 2 else 1)
    {
      hide Inv, Pending, Raise, Message.Code;
      mid := Access();
      if s.host.Done? {
        return false, mid;
      }
      var _ := Access();
      return true, mid;
    }

    /** The polling part of a message that has been sent. `last` is the state that the last poll
        found: its register decides the outcome, and patience runs out only when no poll found a
        reply. */
    method AwaitReply(msg: Message, patience: nat) returns (r: Outcome, ghost last: State)
      requires Valid() && s.host == Poll(msg)
      modifies this
      ensures Valid() && s.host.Idle? && old(s.log) <= s.log && s.sent == old(s.sent)
      ensures Inv(last) && last.host == Poll(msg) && old(s.log) <= last.log && last.sent == old(s.sent)
      ensures IsSuccessFor(msg, last.msgReg) ==> r.Ok? && r.rc == High16(last.msgReg)
      ensures !IsSuccessFor(msg, last.msgReg) ==> r == if IsErrorReply(last.msgReg) then MsgNotRecognized else TimedOut
      ensures r.TimedOut? ==> accesses == old(accesses) + patience + 1
      ensures s.spoiled <==> old(s.spoiled) || (r == TimedOut && msg.Code() != SLEEP)
      ensures !s.spoiled ==> OutcomeMatches(s, msg, r) && AnsweredButSleep(s) && Counts(s, r)
    {
      hide Inv, Pending, Raise, IsSuccessFor, IsErrorReply, High16;
      hide OutcomeMatches, AnsweredButSleep, Message.Code, LastReply, Counts;
      var left := patience;
      while true
        invariant Valid() && s.host == Poll(msg) && s.spoiled == old(s.spoiled)
        invariant s.sent == old(s.sent) && old(s.log) <= s.log
        invariant 0 <= left <= patience && accesses == old(accesses) + patience - left
        decreases left
      {
        var status, polled := ReadMsgReg();
        last := polled;
        if IsSuccessFor(msg, status) {
          var rc := High16(status);
          var arg, _ := ReadReturnReg();
          r := Ok(rc, arg);
          Finish(msg, r);
          return;
        } else if IsErrorReply(status) {
          r := MsgNotRecognized;
          Finish(msg, r);
          return;
        }
        if left == 0 {
          ActionKeeps(s, GiveUp);
          s := Apply(s, GiveUp);
          r := TimedOut;
          Finish(msg, r);
          return;
        }
        left := left - 1;
      }
    }

    /** Sends a message; with `wait`, polls for the reply at most `patience` more times. `first`,
        `mid` and `last` are the states found by the first read, by the read of the interrupt
        register and by the last poll; what they hold decides the outcome. As long as no message but
        the sleep message was abandoned, the interrupt does not fail, and a result is what the reply
        with the message's own number says. */
    method ArcMsg(msg: Message, patience: nat)
      returns (r: Outcome, ghost first: State, ghost mid: State, ghost last: State)
      requires Valid() && s.host.Idle?
      modifies this
      ensures Valid() && s.host.Idle? && old(s.log) <= s.log
      ensures Inv(first) && first.host == ReadCurrent(msg) && first.sent == old(s.sent) && old(s.log) <= first.log
      ensures r.ArcAsleep? <==> IsAsleep(first.msgReg)
      ensures !r.ArcAsleep? ==> Inv(mid) && mid.host == IntRead(msg) && mid.sent == old(s.sent) && first.log <= mid.log
      ensures r.FwIntFailed? <==> !r.ArcAsleep? && Pending(mid.misc)
      ensures r.OkNoWait? <==> !r.ArcAsleep? && !r.FwIntFailed? && !msg.wait
      ensures r.Ok? || r.MsgNotRecognized? || r.TimedOut? ==>
        Inv(last) && last.host == Poll(msg) && last.sent == old(s.sent) + [msg] && mid.log <= last.log
      ensures r.Ok? ==> IsSuccessFor(msg, last.msgReg) && r.rc == High16(last.msgReg)
      ensures r.MsgNotRecognized? ==> !IsSuccessFor(msg, last.msgReg) && IsErrorReply(last.msgReg)
      ensures r.TimedOut? ==> !IsSuccessFor(msg, last.msgReg) && !IsErrorReply(last.msgReg)
      ensures r.ArcAsleep? ==> accesses == old(accesses) + 1
      ensures r.TimedOut? ==> accesses == old(accesses) + patience + 6
      ensures s.spoiled <==> old(s.spoiled) || ((r == TimedOut || r == OkNoWait) && msg.Code() != SLEEP)
      ensures s.sent == if r.ArcAsleep? || r.FwIntFailed? then old(s.sent) else old(s.sent) + [msg]
      ensures !s.spoiled ==> OutcomeMatches(s, msg, r) && AnsweredButSleep(s)
      ensures !old(s.spoiled) ==> r != FwIntFailed
      ensures !s.spoiled && |old(s.log)| == |old(s.sent)| && (r.Ok? || r.MsgNotRecognized?) ==>
        |s.log| == |old(s.log)| + 1
      ensures !s.spoiled && |old(s.log)| == |old(s.sent)| && r.ArcAsleep? ==> |s.log| == |old(s.log)|
    {
      hide Inv, Pending, Raise, IsAsleep, IsSuccessFor, IsErrorReply, High16, RequestWord, Message.Arg;
      hide OutcomeMatches, AnsweredButSleep, Message.Code, LastReply;
      ActionKeeps(s, Send(msg));
      s := Apply(s, Send(msg));
      var current;
      current, first := ReadMsgReg();
      mid, last := first, first;
      if IsAsleep(current) {
        r := ArcAsleep;
        Finish(msg, r);
        return;
      }
      WriteReg(msg.Arg());
      WriteReg(RequestWord(msg));
      var raised;
      raised, mid := TriggerFwInt();
      if !raised {
        r := FwIntFailed;
        Finish(msg, r);
        return;
      }
      if !msg.wait {
        r := OkNoWait;
        Finish(msg, r);
        return;
      }
      r, last := AwaitReply(msg, patience);
    }

    method Finish(msg: Message, r: Outcome)
      requires Valid() && s.host == Done(msg, r)
      modifies this`s
      ensures Valid() && s == old(s).(host := Idle)
      ensures !s.spoiled ==> OutcomeMatches(s, msg, r) && AnsweredButSleep(s) && r != FwIntFailed && Counts(s, r)
    {
      DoneMatches(s);
      hide Inv, OutcomeMatches, AnsweredButSleep;
      ActionKeeps(s, Return);
      MatchIgnoresHost(s, msg, r);
      s := Apply(s, Return);
    }
  }

  /** A message with a result leaves none unanswered, and any message at most the last one. */
  predicate Counts(s: State, r: Outcome) {
    |s.log| <= |s.sent| && (r.Ok? || r.MsgNotRecognized? ==> |s.log| == |s.sent|)
  }

  lemma DoneMatches(s: State)
    requires Inv(s) && s.host.Done?
    ensures !s.spoiled ==>
      && OutcomeMatches(s, s.host.msg, s.host.outcome) && AnsweredButSleep(s.(host := Idle))
      && s.host.outcome != FwIntFailed && Counts(s, s.host.outcome)
  {
  }

  lemma MatchIgnoresHost(s: State, msg: Message, r: Outcome)
    ensures OutcomeMatches(s, msg, r) == OutcomeMatches(s.(host := Idle), msg, r)
    ensures AnsweredButSleep(s) == AnsweredButSleep(s.(host := Idle))
  {
  }
}
