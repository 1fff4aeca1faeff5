/** The host's side of a Blackhole message queue, as code: every device access lets the firmware
    run first and is one step of QueueModel, so what is proved of all runs holds of these methods. */
module MessageQueue {
  import opened QueueLayout
  import opened QueueModel
  import opened QueueSafety

  datatype SendResult = Response(words: Entry) | Timeout(phase: Phase) | QueueIndexOutOfRange
  datatype Phase = Push | Pop

  /** The access the sending thread makes next. */
  datatype Access = ReadAt(offset: nat) | WriteAt(offset: nat, value: nat) | ReadInterrupt | RaiseInterrupt | Nothing

  function NextAccess(c: Config, h: Host): Access
    requires c.layout.Valid() && (!h.Idle? ==> |h.request| == c.layout.n)
  {
    var l := c.layout;
    match h
    case PushReadWptr(_) => ReadAt(0)
    case PushPoll(_, _) => ReadAt(4)
    case PushWrite(request, wptr, i) =>
      if i < |request| then WriteAt(l.RequestSlot(wptr) + i, request[i]) else WriteAt(0, l.Advance(wptr))
    case RaiseRead(_) => ReadInterrupt
    case RaiseWrite(_) => RaiseInterrupt
    case PopReadRptr(_) => ReadAt(1)
    case PopPoll(_, _) => ReadAt(5)
    case PopRead(_, rptr, words) =>
      if |words| < l.n then ReadAt(l.ResponseSlot(rptr) + |words|) else WriteAt(1, l.Advance(rptr))
    case _ => Nothing
  }

  /** `t` is reached from `s` by firmware steps alone. */
  predicate FirmwareRan(s: State, t: State) {
    && t.host == s.host && t.requests == s.requests && t.popped == s.popped && t.lost == s.lost
    && s.served <= t.served && s.responses <= t.responses
  }

  predicate FirmwareActions(batch: seq<Action>) {
    forall i :: 0 <= i < |batch| ==> batch[i].FirmwareStep? || batch[i].Answer?
  }

  lemma {:induction false} FirmwareRunKeeps(c: Config, s: State, batch: seq<Action>)
    requires Sized(c, s) && FirmwareActions(batch)
    ensures FirmwareRan(s, Run(c, s, batch))
    decreases |batch|
  {
    if batch != [] {
      var t := Apply(c, s, batch[0]);
      assert FirmwareRan(s, t);
      FirmwareRunKeeps(c, t, batch[1..]);
    }
  }

  class ArcQueue {
    const c: Config
    var s: State
    /** What the firmware is going to do before each coming host access. */
    var script: seq<seq<Action>>
    /** How many accesses the host has made. */
    ghost var accesses: nat

    ghost predicate Valid()
      reads this
    {
      Inv(c, s) && forall i :: 0 <= i < |script| ==> FirmwareActions(script[i])
    }

    constructor (c: Config, s: State, script: seq<seq<Action>>)
      requires Init(c, s) && forall i :: 0 <= i < |script| ==> FirmwareActions(script[i])
      ensures this.c == c && this.s == s && this.script == script && Valid()
    {
      this.c, this.s, this.script, this.accesses := c, s, script, 0;
      new;
      InitSafe(c, s);
    }

    /** The firmware's turn before an access. */
    method LetFirmwareRun()
      requires Valid()
      modifies this
      ensures Valid() && FirmwareRan(old(s), s) && accesses == old(accesses) + 1
    {
      hide Inv, Run, Apply;
      accesses := accesses + 1;
      if script != [] {
        InvSized(c, s);
        RunSafe(c, s, script[0]);
        FirmwareRunKeeps(c, s, script[0]);
        s := Run(c, s, script[0]);
        script := script[1..];
      }
    }

    /** Reads a word of the queue; `mid` is the state in which the read took effect. */
    method Qread32(offset: nat) returns (value: nat, ghost mid: State)
      requires Valid() && Sized(c, s) && NextAccess(c, s.host) == ReadAt(offset)
      modifies this
      ensures Valid() && Inv(c, mid) && FirmwareRan(old(s), mid)
      ensures Sized(c, mid) && s == HostNext(c, mid)
      ensures offset < |mid.mem| && value == mid.mem[offset] && accesses == old(accesses) + 1
    {
      hide Inv, HostNext, Layout.RequestSlot, Layout.ResponseSlot;
      LetFirmwareRun();
      InvSized(c, s);
      AccessInArea(c, s);
      mid := s;
      value := s.mem[offset];
      HostStepSafe(c, s);
      s := HostNext(c, s);
    }

    method Qwrite32(offset: nat, value: nat) returns (ghost mid: State)
      requires Valid() && Sized(c, s) && NextAccess(c, s.host) == WriteAt(offset, value)
      modifies this
      ensures Valid() && Inv(c, mid) && FirmwareRan(old(s), mid)
      ensures Sized(c, mid) && s == HostNext(c, mid)
      ensures offset < |mid.mem| && s.mem == mid.mem[offset := value] && accesses == old(accesses) + 1
    {
      hide Inv, HostNext, Layout.RequestSlot, Layout.ResponseSlot;
      LetFirmwareRun();
      InvSized(c, s);
      AccessInArea(c, s);
      mid := s;
      HostStepSafe(c, s);
      WriteTakesEffect(c, s);
      s := HostNext(c, s);
    }

    /** True exactly when no interrupt was pending in `mid`, the state that the read found; then
        the interrupt is raised. */
    method TriggerInt() returns (raised: bool, ghost mid: State)
      requires Valid() && s.host.RaiseRead?
      modifies this
      ensures Valid() && s.host == PopReadRptr(old(s.host.request))
      ensures s.requests == old(s.requests) && s.popped == old(s.popped) && s.lost == old(s.lost)
      ensures old(s.served) <= s.served && old(s.responses) <= s.responses
      ensures Inv(c, mid) && FirmwareRan(old(s), mid) && raised == !mid.irq
      ensures raised ==> s.irq
      ensures accesses == old(accesses) + (if raised then 2 else 1)
    {
      hide Inv;
      LetFirmwareRun();
      mid := s;
      InvSized(c, s);
      HostStepSafe(c, s);
      var pending := s.irq;
      s := HostNext(c, s);
      if pending {
        return false, mid;
      }
      LetFirmwareRun();
      InvSized(c, s);
      HostStepSafe(c, s);
      s := HostNext(c, s);
      return true, mid;
    }

    /** Gives up a poll. */
    method TimeOut()
      requires Valid() && (s.host.PushPoll? || s.host.PopPoll?)
      modifies this`s
      ensures Valid()
      ensures Sized(c, old(s)) && s == Apply(c, old(s), GiveUp)
    {
      hide Inv;
      InvSized(c, s);
      SenderSafe(c, s, GiveUp);
      s := Apply(c, s, GiveUp);
    }

    /** Polls until the request ring has room; false when it was full at every one of the polls, the
        last of them in the state `seen`. */
    method AwaitRoom(request: Entry, wptr: nat, patience: nat) returns (ok: bool, ghost seen: State)
      requires Valid() && s.host == PushPoll(request, wptr)
      modifies this
      ensures Valid()
      ensures s.host == if ok then PushWrite(request, wptr, 0) else Done(request, PushTimeout)
      ensures s.requests == old(s.requests) && s.popped == old(s.popped) && s.lost == old(s.lost)
      ensures old(s.served) <= seen.served <= s.served && old(s.responses) <= s.responses
      ensures Inv(c, seen) && seen.requests == old(s.requests)
      ensures ok == (|seen.requests| < |seen.served| + c.layout.queueSize)
      ensures accesses > old(accesses) && (!ok ==> accesses == old(accesses) + patience + 1)
    {
      hide Inv;
      var left := patience;
      while true
        invariant Valid() && s.host == PushPoll(request, wptr) && s.requests == old(s.requests)
        invariant s.popped == old(s.popped) && s.lost == old(s.lost)
        invariant old(s.served) <= s.served && old(s.responses) <= s.responses
        invariant 0 <= left <= patience && accesses == old(accesses) + patience - left
        decreases left
      {
        InvSized(c, s);
        var rptr, polled := Qread32(4);
        seen := polled;
        FullSeen(c, seen);
        if AbsDiff(rptr, wptr) % (2 * c.layout.queueSize) != c.layout.queueSize {
          return true, seen;
        }
        if left == 0 {
          TimeOut();
          return false, seen;
        }
        left := left - 1;
      }
    }

    /** Publishes a request; false when the ring was still full at the last poll, in the state
        `seen`. So a ring with room when the push begins is never refused. */
    method PushRequest(request: Entry, patience: nat) returns (ok: bool, ghost seen: State)
      requires Valid() && s.host == PushReadWptr(request) && |request| == c.layout.n
      modifies this
      ensures Valid()
      ensures s.host == if ok then PopReadRptr(request) else Done(request, PushTimeout)
      ensures s.requests == old(s.requests) + if ok then [request] else []
      ensures s.popped == old(s.popped) && s.lost == old(s.lost)
      ensures old(s.served) <= seen.served <= s.served && old(s.responses) <= s.responses
      ensures Inv(c, seen) && seen.requests == old(s.requests)
      ensures ok == (|seen.requests| < |seen.served| + c.layout.queueSize)
      ensures |old(s.requests)| < |old(s.served)| + c.layout.queueSize ==> ok
      ensures accesses >= old(accesses) && (!ok ==> accesses == old(accesses) + patience + 2)
    {
      hide Inv, HostNext, Layout.RequestSlot, Layout.ResponseSlot, Layout.Advance;
      InvSized(c, s);
      var wptr, first := Qread32(0);
      PushNext(c, first);
      ok, seen := AwaitRoom(request, wptr, patience);
      if !ok {
        return;
      }
      var offset := c.layout.RequestSlot(wptr);
      for i := 0 to |request|
        invariant Valid() && s.host == PushWrite(request, wptr, i) && s.requests == old(s.requests)
        invariant s.popped == old(s.popped) && s.lost == old(s.lost)
        invariant seen.served <= s.served && old(s.responses) <= s.responses && accesses >= old(accesses)
      {
        InvSized(c, s);
        var mid := Qwrite32(offset + i, request[i]);
        PushNext(c, mid);
      }
      InvSized(c, s);
      var last := Qwrite32(0, c.layout.Advance(wptr));
      PushNext(c, last);
      var _, _ := TriggerInt();
    }

    /** Polls until there is a response; false when there was none at every one of the polls, the last
        of them in the state `seen`. */
    method AwaitResponse(request: Entry, rptr: nat, patience: nat) returns (ok: bool, ghost seen: State)
      requires Valid() && s.host == PopPoll(request, rptr)
      modifies this
      ensures Valid()
      ensures s.host == if ok then PopRead(request, rptr, []) else Done(request, PopTimeout)
      ensures s.requests == old(s.requests) && s.popped == old(s.popped)
      ensures s.lost == old(s.lost) + (if ok then 0 else 1)
      ensures old(s.responses) <= seen.responses <= s.responses && old(s.served) <= s.served
      ensures Inv(c, seen) && seen.popped == old(s.popped) && ok == (seen.popped < |seen.responses|)
      ensures accesses > old(accesses) && (!ok ==> accesses == old(accesses) + patience + 1)
    {
      hide Inv;
      var left := patience;
      while true
        invariant Valid() && s.host == PopPoll(request, rptr) && s.requests == old(s.requests)
        invariant s.popped == old(s.popped) && s.lost == old(s.lost)
        invariant old(s.served) <= s.served && old(s.responses) <= s.responses
        invariant 0 <= left <= patience && accesses == old(accesses) + patience - left
        decreases left
      {
        InvSized(c, s);
        var wptr, polled := Qread32(5);
        seen := polled;
        ResponseSeen(c, seen);
        if wptr != rptr {
          return true, seen;
        }
        if left == 0 {
          TimeOut();
          return false, seen;
        }
        left := left - 1;
      }
    }

    /** Takes the next response off the ring; false when there was still none at the last poll, in
        the state `seen`. So a response that is there when the pop begins is never missed. */
    method PopResponse(patience: nat) returns (ok: bool, result: Entry, ghost seen: State)
      requires Valid() && s.host.PopReadRptr?
      modifies this
      ensures Valid()
      ensures s.host == Done(old(s.host.request), if ok then Sent(result) else PopTimeout)
      ensures s.popped == old(s.popped) + (if ok then 1 else 0)
      ensures s.lost == old(s.lost) + (if ok then 0 else 1)
      ensures s.requests == old(s.requests)
      ensures old(s.responses) <= seen.responses <= s.responses && old(s.served) <= s.served
      ensures Inv(c, seen) && seen.popped == old(s.popped) && ok == (seen.popped < |seen.responses|)
      ensures old(s.popped) < |old(s.responses)| ==> ok
      ensures accesses >= old(accesses) && (!ok ==> accesses == old(accesses) + patience + 2)
    {
      hide Inv, Layout.RequestSlot, Layout.ResponseSlot, Layout.Advance;
      result := [];
      ghost var request := s.host.request;
      InvSized(c, s);
      var rptr, _ := Qread32(1);
      ok, seen := AwaitResponse(s.host.request, rptr, patience);
      if !ok {
        return;
      }
      var offset := c.layout.ResponseSlot(rptr);
      for i := 0 to c.layout.n
        invariant Valid() && |result| == i && s.host == PopRead(request, rptr, result) && s.requests == old(s.requests)
        invariant s.popped == old(s.popped) && s.lost == old(s.lost)
        invariant old(s.served) <= s.served && seen.responses <= s.responses && accesses >= old(accesses)
      {
        InvSized(c, s);
        var word, _ := Qread32(offset + i);
        result := result + [word];
      }
      InvSized(c, s);
      var _ := Qwrite32(1, c.layout.Advance(rptr));
    }

    /** Sends a request and waits for the response, with the lock held throughout. `full` and `empty`
        are the states that the last polls of the push and of the pop found. */
    method SendMessage(index: nat, request: Entry, patience: nat)
      returns (r: SendResult, ghost full: State, ghost empty: State)
      requires Valid() && s.host.Idle? && |request| == c.layout.n
      modifies this
      ensures Valid() && s.host.Idle?
      ensures r.QueueIndexOutOfRange? <==> index > c.layout.queueCount
      ensures r.QueueIndexOutOfRange? ==> s == old(s)
      ensures r.Response? || r == Timeout(Pop) ==> s.requests == old(s.requests) + [request]
      ensures r == Timeout(Push) ==> s.requests == old(s.requests)
      ensures !r.QueueIndexOutOfRange? ==>
        && old(s.served) <= full.served <= s.served && full.requests == old(s.requests)
        && (r == Timeout(Push) <==> |full.requests| == |full.served| + c.layout.queueSize)
      ensures r.Response? || r == Timeout(Pop) ==>
        && old(s.responses) <= empty.responses <= s.responses && empty.popped == old(s.popped)
        && (r == Timeout(Pop) <==> empty.popped == |empty.responses|)
      ensures |old(s.requests)| < |old(s.served)| + c.layout.queueSize ==> r != Timeout(Push)
      ensures old(s.popped) < |old(s.responses)| ==> r != Timeout(Pop)
      ensures r.Timeout? ==> accesses >= old(accesses) + patience + 2
      ensures s.popped == old(s.popped) + (if r.Response? then 1 else 0)
      ensures s.lost == old(s.lost) + (if r == Timeout(Pop) then 1 else 0)
      ensures old(s.served) <= s.served && old(s.responses) <= s.responses
      ensures r.Response? ==> old(s.popped) < |s.responses| <= |s.served| && r.words == s.responses[old(s.popped)]
      ensures r.Response? && s.lost == 0 ==> s.served[old(s.popped)] == request
    {
      hide Inv;
      if index > c.layout.queueCount {
        return QueueIndexOutOfRange, s, s;
      }
      InvSized(c, s);
      SenderSafe(c, s, Acquire(request));
      s := Apply(c, s, Acquire(request));
      var pushed;
      pushed, full := PushRequest(request, patience);
      SeenBounds(c, full);
      empty := s;
      if !pushed {
        Unlock();
        return Timeout(Push), full, empty;
      }
      var popped, words;
      popped, words, empty := PopResponse(patience);
      SeenBounds(c, empty);
      if popped {
        DoneMatches(c, s);
        Unlock();
        return Response(words), full, empty;
      } else {
        Unlock();
        return Timeout(Pop), full, empty;
      }
    }

    method Unlock()
      requires Valid() && s.host.Done?
      modifies this`s
      ensures Valid() && s == old(s).(host := Idle)
    {
      hide Inv;
      InvSized(c, s);
      SenderSafe(c, s, Release);
      s := Apply(c, s, Release);
    }
  }

  lemma AccessInArea(c: Config, s: State)
    requires Inv(c, s)
    ensures NextAccess(c, s.host).ReadAt? || NextAccess(c, s.host).WriteAt? ==> NextAccess(c, s.host).offset < |s.mem|
  {
    hide Stored, Words, Offset, Holds, Layout.RequestSlot, Layout.ResponseSlot;
    match s.host
    case PushWrite(request, wptr, i) => if i < |request| { RequestWordInArea(c.layout, wptr, i); }
    case PopRead(_, rptr, words) => if |words| < c.layout.n { ResponseWordInArea(c.layout, rptr, |words|); }
    case _ =>
  }

  lemma WriteTakesEffect(c: Config, s: State)
    requires Inv(c, s) && NextAccess(c, s.host).WriteAt?
    ensures var a := NextAccess(c, s.host);
            a.offset < |s.mem| && HostNext(c, s).mem == s.mem[a.offset := a.value]
  {
    hide Stored, Words, Offset, Holds, Layout.RequestSlot, Layout.ResponseSlot;
    AccessInArea(c, s);
  }

  /** What the accesses of a push other than its polls change. */
  lemma PushNext(c: Config, s: State)
    requires Sized(c, s) && (s.host.PushReadWptr? || s.host.PushWrite?)
    ensures var t, h := HostNext(c, s), s.host;
            && t.served == s.served && t.responses == s.responses && t.popped == s.popped && t.lost == s.lost
            && (h.PushReadWptr? ==> t.requests == s.requests && t.host == PushPoll(h.request, s.mem[0]))
            && (h.PushWrite? && h.written < |h.request| ==>
                  t.requests == s.requests && t.host == PushWrite(h.request, h.wptr, h.written + 1))
            && (h.PushWrite? && h.written >= |h.request| ==>
                  t.requests == s.requests + [h.request] && t.host == RaiseRead(h.request))
  {
    hide Layout.RequestSlot, Layout.Advance;
  }

  /** What a poll of the push finds: the pointers show a full ring exactly when it is full. */
  lemma FullSeen(c: Config, s: State)
    requires Inv(c, s) && s.host.PushPoll?
    ensures Sized(c, s)
    ensures Full(c.layout, s.mem[4], s.host.wptr) <==> !(|s.requests| < |s.served| + c.layout.queueSize)
  {
    hide Slots, Words, Full, NoLostWakeup, FirmwareOk;
    FullIff(c.layout, c.requestStart + |s.served|, c.requestStart + |s.requests|);
  }

  /** What a poll of the pop finds: the pointers differ exactly when there is a response. */
  lemma ResponseSeen(c: Config, s: State)
    requires Inv(c, s) && s.host.PopPoll?
    ensures Sized(c, s)
    ensures s.mem[5] != s.host.rptr <==> s.popped < |s.responses|
  {
    hide Slots, Words, Full, NoLostWakeup, FirmwareOk;
    PointersDiffer(c.layout, c.responseStart + s.popped, c.responseStart + |s.responses|);
  }

  lemma SeenBounds(c: Config, s: State)
    requires Inv(c, s)
    ensures |s.requests| <= |s.served| + c.layout.queueSize && s.popped <= |s.responses|
  {
  }

  lemma DoneMatches(c: Config, s: State)
    requires Inv(c, s) && s.host.Done? && s.host.outcome.Sent?
    ensures 0 < s.popped <= |s.responses| <= |s.served|
    ensures s.host.outcome.response == s.responses[s.popped - 1]
    ensures s.lost == 0 ==> s.served[s.popped - 1] == s.host.request
  {
    hide Slots, Pointers, FirmwareOk, NoLostWakeup;
  }
}
