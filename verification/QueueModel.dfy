/** One Blackhole message queue shared by the host and the firmware.
    Every access to device memory is one step; host and firmware steps interleave freely.
    The firmware is not part of the repository: its steps are the assumption made about it.
    It takes requests in order and answers them in order, one response for each, as late as it
    likes; it writes only words 4 and 5 of the header and the response slots, waits for room
    before it answers, and clears the interrupt before it drains the ring. */
module QueueModel {
  import opened QueueLayout

  type Entry = seq<nat>

  /** A queue and the values its pointers started from. */
  datatype Config = Config(layout: Layout, requestStart: nat, responseStart: nat)

  datatype Outcome = Sent(response: Entry) | PushTimeout | PopTimeout

  /** Where the thread that holds the ARC lock is inside a send. */
  datatype Host =
    | Idle
    | PushReadWptr(request: Entry)
    | PushPoll(request: Entry, wptr: nat)
    | PushWrite(request: Entry, wptr: nat, written: nat)
    | RaiseRead(request: Entry)
    | RaiseWrite(request: Entry)
    | PopReadRptr(request: Entry)
    | PopPoll(request: Entry, rptr: nat)
    | PopRead(request: Entry, rptr: nat, words: Entry)
    | Done(request: Entry, outcome: Outcome)

  datatype Firmware =
    | Asleep
    | Check
    | Seen(wptr: nat, count: nat)
    | Take(words: Entry)
    | Reply(response: Entry, written: nat)

  /** `mem` is the queue's area in words. The sequences and counters record the run:
      requests published, requests as the firmware read them, responses published,
      responses popped, and sends that gave up after publishing. */
  datatype State = State(
    mem: seq<nat>, irq: bool, host: Host, firmware: Firmware,
    requests: seq<Entry>, served: seq<Entry>, responses: seq<Entry>, popped: nat, lost: nat)

  datatype Action =
    | Acquire(request: Entry)
    | HostStep
    | GiveUp
    | Release
    | FirmwareStep
    | Answer(response: Entry)

  function Full(l: Layout, rptr: nat, wptr: nat): bool
    requires l.queueSize > 0
  {
    AbsDiff(rptr, wptr) % (2 * l.queueSize) == l.queueSize
  }

  predicate Sized(c: Config, s: State) {
    && c.layout.Valid() && |s.mem| == c.layout.AreaWords()
    && (!s.host.Idle? ==> |s.host.request| == c.layout.n)
    && (s.firmware.Reply? ==> |s.firmware.response| == c.layout.n)
  }

  lemma RequestWordInArea(l: Layout, wptr: nat, i: nat)
    requires l.Valid() && i < l.n
    ensures l.RequestSlot(wptr) + i < l.AreaWords()
  {
    RingsApart(l, wptr, 0);
  }

  lemma ResponseWordInArea(l: Layout, rptr: nat, i: nat)
    requires l.Valid() && i < l.n
    ensures l.ResponseSlot(rptr) + i < l.AreaWords()
  {
    RingsApart(l, 0, rptr);
  }

  /** One memory access of the sending thread, or the step between two of them. */
  function HostNext(c: Config, s: State): (s': State)
    requires Sized(c, s)
    ensures Sized(c, s')
  {
    var l := c.layout;
    match s.host
    case PushReadWptr(request) => s.(host := PushPoll(request, s.mem[0]))
    case PushPoll(request, wptr) =>
      if Full(l, s.mem[4], wptr) then s else s.(host := PushWrite(request, wptr, 0))
    case PushWrite(request, wptr, i) =>
      if i < |request| then
        RequestWordInArea(l, wptr, i);
        s.(mem := s.mem[l.RequestSlot(wptr) + i := request[i]], host := PushWrite(request, wptr, i + 1))
      else
        s.(mem := s.mem[0 := l.Advance(wptr)], host := RaiseRead(request), requests := s.requests + [request])
    case RaiseRead(request) => s.(host := if s.irq then PopReadRptr(request) else RaiseWrite(request))
    case RaiseWrite(request) => s.(irq := true, host := PopReadRptr(request))
    case PopReadRptr(request) => s.(host := PopPoll(request, s.mem[1]))
    case PopPoll(request, rptr) =>
      if s.mem[5] != rptr then s.(host := PopRead(request, rptr, [])) else s
    case PopRead(request, rptr, words) =>
      if |words| < l.n then
        ResponseWordInArea(l, rptr, |words|);
        s.(host := PopRead(request, rptr, words + [s.mem[l.ResponseSlot(rptr) + |words|]]))
      else
        s.(mem := s.mem[1 := l.Advance(rptr)], host := Done(request, Sent(words)), popped := s.popped + 1)
    case _ => s
  }

  function FirmwareNext(c: Config, s: State): (s': State)
    requires Sized(c, s)
    ensures Sized(c, s')
  {
    var l := c.layout;
    match s.firmware
    case Asleep => if s.irq then s.(irq := false, firmware := Check) else s
    case Check => s.(firmware := Seen(s.mem[0], |s.requests|))
    case Seen(wptr, _) => s.(firmware := if wptr == s.mem[4] then Asleep else Take([]))
    case Take(words) =>
      if |words| < l.n then
        RequestWordInArea(l, s.mem[4], |words|);
        s.(firmware := Take(words + [s.mem[l.RequestSlot(s.mem[4]) + |words|]]))
      else
        s.(mem := s.mem[4 := l.Advance(s.mem[4])], firmware := Check, served := s.served + [words])
    case Reply(response, i) =>
      if i < |response| then
        ResponseWordInArea(l, s.mem[5], i);
        s.(mem := s.mem[l.ResponseSlot(s.mem[5]) + i := response[i]], firmware := Reply(response, i + 1))
      else
        s.(mem := s.mem[5 := l.Advance(s.mem[5])], firmware := Check, responses := s.responses + [response])
  }

  /** One action of the whole system; an action that is not enabled changes nothing. */
  function Apply(c: Config, s: State, a: Action): (s': State)
    requires Sized(c, s)
    ensures Sized(c, s')
  {
    match a
    case Acquire(request) =>
      if s.host.Idle? && |request| == c.layout.n then s.(host := PushReadWptr(request)) else s
    case HostStep => HostNext(c, s)
    case GiveUp =>
      if s.host.PushPoll? then s.(host := Done(s.host.request, PushTimeout))
      else if s.host.PopPoll? then s.(host := Done(s.host.request, PopTimeout), lost := s.lost + 1)
      else s
    case Release => if s.host.Done? then s.(host := Idle) else s
    case FirmwareStep => FirmwareNext(c, s)
    case Answer(response) =>
      if (s.firmware.Check? || s.firmware.Asleep?) && |s.responses| < |s.served|
         && |response| == c.layout.n && !Full(c.layout, s.mem[1], s.mem[5])
      then s.(firmware := Reply(response, 0)) else s
  }

  function Run(c: Config, s: State, actions: seq<Action>): (s': State)
    requires Sized(c, s)
    ensures Sized(c, s')
    decreases |actions|
  {
    if actions == [] then s else Run(c, Apply(c, s, actions[0]), actions[1..])
  }

  // ------------------------------------------------------- the invariant

  datatype Ring = Requests | Responses

  /** The word offset of the slot of entry number `j` of a ring. */
  function Offset(c: Config, ring: Ring, j: nat): nat
    requires c.layout.queueSize > 0
  {
    match ring
    case Requests => c.layout.RequestSlot(c.requestStart + j)
    case Responses => c.layout.ResponseSlot(c.responseStart + j)
  }

  predicate Holds(mem: seq<nat>, offset: nat, e: Entry) {
    offset + |e| <= |mem| && mem[offset..offset + |e|] == e
  }

  /** Entries lo..hi of a ring are in their slots. */
  predicate Stored(c: Config, mem: seq<nat>, ring: Ring, entries: seq<Entry>, lo: nat, hi: nat)
    requires c.layout.queueSize > 0
  {
    hi <= |entries| && forall j: nat :: lo <= j < hi ==> Holds(mem, Offset(c, ring, j), entries[j])
  }

  predicate Words(c: Config, entries: seq<Entry>) {
    forall j: nat :: j < |entries| ==> |entries[j]| == c.layout.n
  }

  function Waiting(h: Host): bool {
    h.RaiseRead? || h.RaiseWrite? || h.PopReadRptr? || h.PopPoll? || h.PopRead?
  }

  /** Neither ring ever holds more than it has room for, the firmware has read exactly the
      requests that were sent, and the two sides' tallies agree. */
  predicate Tally(c: Config, s: State) {
    && |s.served| <= |s.requests| <= |s.served| + c.layout.queueSize
    && s.popped <= |s.responses| <= s.popped + c.layout.queueSize
    && |s.responses| <= |s.served|
    && s.served == s.requests[..|s.served|]
    && |s.requests| == s.popped + s.lost + (if Waiting(s.host) then 1 else 0)
    && Words(c, s.requests) && Words(c, s.responses)
  }

  predicate Pointers(c: Config, s: State)
    requires Sized(c, s)
  {
    && s.mem[0] == c.layout.Pointer(c.requestStart + |s.requests|)
    && s.mem[4] == c.layout.Pointer(c.requestStart + |s.served|)
    && s.mem[1] == c.layout.Pointer(c.responseStart + s.popped)
    && s.mem[5] == c.layout.Pointer(c.responseStart + |s.responses|)
  }

  predicate Slots(c: Config, s: State)
    requires Sized(c, s)
  {
    && Stored(c, s.mem, Requests, s.requests, |s.served|, |s.requests|)
    && Stored(c, s.mem, Responses, s.responses, s.popped, |s.responses|)
  }

  predicate HostOk(c: Config, s: State)
    requires Sized(c, s)
  {
    && (Waiting(s.host) ==> s.requests != [] && s.requests[|s.requests| - 1] == s.host.request)
    && match s.host
       case PushPoll(_, wptr) => wptr == s.mem[0]
       case PushWrite(request, wptr, i) =>
         && wptr == s.mem[0] && i <= |request|
         && |s.requests| < |s.served| + c.layout.queueSize
         && Holds(s.mem, Offset(c, Requests, |s.requests|), request[..i])
       case PopPoll(_, rptr) => rptr == s.mem[1]
       case PopRead(_, rptr, words) =>
         && rptr == s.mem[1] && s.popped < |s.responses|
         && words <= s.responses[s.popped]
       case Done(request, Sent(response)) =>
         && s.popped > 0 && s.responses != [] && s.popped <= |s.responses|
         && s.requests != [] && s.requests[|s.requests| - 1] == request
         && response == s.responses[s.popped - 1]
       case _ => true
  }

  predicate FirmwareOk(c: Config, s: State)
    requires Sized(c, s)
  {
    match s.firmware
    case Seen(wptr, count) =>
      |s.served| <= count <= |s.requests| && wptr == c.layout.Pointer(c.requestStart + count)
    case Take(words) => |s.served| < |s.requests| && words <= s.requests[|s.served|]
    case Reply(response, i) =>
      && i <= |response| && |s.responses| < |s.served|
      && |s.responses| < s.popped + c.layout.queueSize
      && Holds(s.mem, Offset(c, Responses, |s.responses|), response[..i])
    case _ => true
  }

  /** The firmware sleeps, or is about to on the strength of what it last saw. */
  predicate Dozing(s: State) {
    s.firmware.Asleep? || (s.firmware.Seen? && s.firmware.count == |s.served|)
  }

  /** A published request never waits on a dozing firmware without the interrupt being raised,
      except while the sender is on its way to raise it. */
  predicate NoLostWakeup(s: State) {
    |s.served| < |s.requests| && Dozing(s) && !s.host.RaiseRead? && !s.host.RaiseWrite? ==> s.irq
  }

  predicate Inv(c: Config, s: State) {
    Sized(c, s) && Tally(c, s) && Pointers(c, s) && Slots(c, s) && HostOk(c, s) && FirmwareOk(c, s) && NoLostWakeup(s)
  }

  /** A queue at rest: both rings empty, nobody sending, the firmware asleep. */
  predicate Init(c: Config, s: State) {
    && Sized(c, s)
    && s.host.Idle? && s.firmware.Asleep?
    && s.requests == s.served == s.responses == [] && s.popped == s.lost == 0
    && c.requestStart < 2 * c.layout.queueSize && c.responseStart < 2 * c.layout.queueSize
    && s.mem[0] == s.mem[4] == c.requestStart && s.mem[1] == s.mem[5] == c.responseStart
  }
}
