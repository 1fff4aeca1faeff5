/** Every run of the queue keeps the invariant: rings never overfill, slots being written are
    never visible, the firmware reads whole requests, replies match, no wakeup is lost. */
module QueueSafety {
  import opened QueueLayout
  import opened QueueModel

  // ------------------------------------------------------- what a word write leaves alone

  lemma InvSized(c: Config, s: State)
    requires Inv(c, s)
    ensures Sized(c, s)
  {
  }

  lemma WriteKeeps(mem: seq<nat>, a: nat, x: nat, offset: nat, e: Entry)
    requires a < |mem| && Holds(mem, offset, e)
    requires a < offset || offset + |e| <= a
    ensures Holds(mem[a := x], offset, e)
  {
  }

  lemma WriteExtends(mem: seq<nat>, offset: nat, e: Entry, i: nat)
    requires i < |e| && offset + i < |mem| && Holds(mem, offset, e[..i])
    ensures Holds(mem[offset + i := e[i]], offset, e[..i + 1])
  {
    assert e[..i + 1] == e[..i] + [e[i]];
  }

  /** Slots of different rings, or of entries less than a ring length apart, do not overlap. */
  lemma OffsetsApart(c: Config, ring: Ring, j: nat, ring': Ring, k: nat)
    requires c.layout.Valid()
    requires ring != ring' || j < k < j + c.layout.queueSize
    ensures var x, y := Offset(c, ring, j), Offset(c, ring', k); x + c.layout.n <= y || y + c.layout.n <= x
  {
    var l, q := c.layout, c.layout.queueSize;
    if ring != ring' {
      if ring == Requests {
        RingsApart(l, c.requestStart + j, c.responseStart + k);
      } else {
        RingsApart(l, c.requestStart + k, c.responseStart + j);
      }
    } else {
      var start := if ring == Requests then c.requestStart else c.responseStart;
      var base := if ring == Requests then 0 else q;
      ModDistinct(start + j, start + k, q);
      RingSlot(start + j, q);
      RingSlot(start + k, q);
      SlotPairApart(l, base + (start + j) % q, base + (start + k) % q);
    }
  }

  lemma SlotPairApart(l: Layout, x: nat, y: nat)
    requires x != y && x < 2 * l.queueSize && y < 2 * l.queueSize
    ensures l.Slot(x) + l.n <= l.Slot(y) || l.Slot(y) + l.n <= l.Slot(x)
  {
    if x < y {
      SlotsApart(l, x, y);
    } else {
      SlotsApart(l, y, x);
    }
  }

  lemma OffsetInArea(c: Config, ring: Ring, j: nat)
    requires c.layout.Valid()
    ensures c.layout.headerSize <= Offset(c, ring, j) && Offset(c, ring, j) + c.layout.n <= c.layout.AreaWords()
  {
    RingsApart(c.layout, c.requestStart + j, c.responseStart + j);
  }

  lemma HeaderFrame(c: Config, mem: seq<nat>, a: nat, x: nat, ring: Ring, entries: seq<Entry>, lo: nat, hi: nat)
    requires c.layout.Valid() && a < c.layout.headerSize && a < |mem|
    requires Stored(c, mem, ring, entries, lo, hi)
    ensures Stored(c, mem[a := x], ring, entries, lo, hi)
  {
    hide Offset, Holds;
    forall j: nat | lo <= j < hi
      ensures Holds(mem[a := x], Offset(c, ring, j), entries[j])
    {
      OffsetInArea(c, ring, j);
      WriteKeeps(mem, a, x, Offset(c, ring, j), entries[j]);
    }
  }

  /** A write into the slot of entry `k` leaves the other ring and every live entry of its own
      ring alone, as long as `k` is beyond them by less than a ring length. */
  lemma SlotFrame(
    c: Config, mem: seq<nat>, ring: Ring, k: nat, i: nat, x: nat, ring': Ring, entries: seq<Entry>, lo: nat, hi: nat)
    requires c.layout.Valid() && i < c.layout.n && Offset(c, ring, k) + i < |mem|
    requires ring != ring' || hi <= k < lo + c.layout.queueSize
    requires Stored(c, mem, ring', entries, lo, hi) && Words(c, entries)
    ensures Stored(c, mem[Offset(c, ring, k) + i := x], ring', entries, lo, hi)
  {
    hide Offset, Holds;
    var a := Offset(c, ring, k) + i;
    forall j: nat | lo <= j < hi
      ensures Holds(mem[a := x], Offset(c, ring', j), entries[j])
    {
      OffsetsApart(c, ring', j, ring, k);
      WriteKeeps(mem, a, x, Offset(c, ring', j), entries[j]);
    }
  }

  lemma PointerSlot(c: Config, k: nat)
    requires c.layout.Valid()
    ensures c.layout.RequestSlot(c.layout.Pointer(c.requestStart + k)) == Offset(c, Requests, k)
    ensures c.layout.ResponseSlot(c.layout.Pointer(c.responseStart + k)) == Offset(c, Responses, k)
  {
    ModHalf(c.requestStart + k, c.layout.queueSize);
    ModHalf(c.responseStart + k, c.layout.queueSize);
  }

  /** The full test, on pointers that stand for two counts, compares the counts. */
  lemma FullIff(l: Layout, x: nat, y: nat)
    requires l.queueSize > 0 && x <= y <= x + l.queueSize
    ensures Full(l, l.Pointer(x), l.Pointer(y)) <==> y - x == l.queueSize
  {
    OccupancyOf(x, y, l.queueSize);
    FullTest(x % (2 * l.queueSize), y % (2 * l.queueSize), l.queueSize);
  }

  lemma PointersDiffer(l: Layout, x: nat, y: nat)
    requires l.queueSize > 0 && x <= y <= x + l.queueSize
    ensures l.Pointer(x) == l.Pointer(y) <==> x == y
  {
    if x < y {
      ModDistinct(x, y, 2 * l.queueSize);
    }
  }

  // ------------------------------------------------------- host steps

  lemma PushReadWptrStep(c: Config, s: State)
    requires Inv(c, s) && s.host.PushReadWptr?
    ensures Inv(c, HostNext(c, s))
  {
    hide Stored, Words;
  }

  lemma PushPollStep(c: Config, s: State)
    requires Inv(c, s) && s.host.PushPoll?
    ensures Inv(c, HostNext(c, s))
  {
    hide Stored, Words, Full, Offset;
    FullIff(c.layout, c.requestStart + |s.served|, c.requestStart + |s.requests|);
    OffsetInArea(c, Requests, |s.requests|);
  }

  lemma PushWordStep(c: Config, s: State)
    requires Inv(c, s) && s.host.PushWrite? && s.host.written < |s.host.request|
    ensures Inv(c, HostNext(c, s))
  {
    hide Stored, Words, Offset, Holds, Layout.Pointer, Layout.Advance, Layout.RequestSlot, Layout.ResponseSlot, Full;
    var k, i, x := |s.requests|, s.host.written, s.host.request[s.host.written];
    var a := Offset(c, Requests, k) + i;
    PointerSlot(c, k);
    OffsetInArea(c, Requests, k);
    SlotFrame(c, s.mem, Requests, k, i, x, Requests, s.requests, |s.served|, |s.requests|);
    SlotFrame(c, s.mem, Requests, k, i, x, Responses, s.responses, s.popped, |s.responses|);
    WriteExtends(s.mem, Offset(c, Requests, k), s.host.request, i);
    if s.firmware.Reply? {
      KeepReply(c, s, k, i, x);
    }
  }

  lemma KeepReply(c: Config, s: State, k: nat, i: nat, x: nat)
    requires Inv(c, s) && s.firmware.Reply? && i < c.layout.n && Offset(c, Requests, k) + i < |s.mem|
    ensures var reply := s.firmware.response[..s.firmware.written];
            Holds(s.mem[Offset(c, Requests, k) + i := x], Offset(c, Responses, |s.responses|), reply)
  {
    hide Stored, Words, Offset, Holds, Layout.Pointer, Layout.Advance, Layout.RequestSlot, Layout.ResponseSlot, Full;
    OffsetsApart(c, Responses, |s.responses|, Requests, k);
    var reply := s.firmware.response[..s.firmware.written];
    WriteKeeps(s.mem, Offset(c, Requests, k) + i, x, Offset(c, Responses, |s.responses|), reply);
  }

  lemma KeepReplyHeader(c: Config, s: State, a: nat, x: nat)
    requires Inv(c, s) && s.firmware.Reply? && a < c.layout.headerSize
    ensures Holds(s.mem[a := x], Offset(c, Responses, |s.responses|), s.firmware.response[..s.firmware.written])
  {
    hide Stored, Words, Offset, Holds, Layout.Pointer, Layout.Advance, Layout.RequestSlot, Layout.ResponseSlot, Full;
    OffsetInArea(c, Responses, |s.responses|);
    WriteKeeps(s.mem, a, x, Offset(c, Responses, |s.responses|), s.firmware.response[..s.firmware.written]);
  }

  lemma StoredGrows(c: Config, mem: seq<nat>, ring: Ring, entries: seq<Entry>, e: Entry, lo: nat)
    requires c.layout.Valid() && lo <= |entries|
    requires Stored(c, mem, ring, entries, lo, |entries|)
    requires Holds(mem, Offset(c, ring, |entries|), e)
    ensures Stored(c, mem, ring, entries + [e], lo, |entries| + 1)
  {
    hide Offset, Holds;
  }

  lemma WordsGrow(c: Config, entries: seq<Entry>, e: Entry)
    requires Words(c, entries) && |e| == c.layout.n
    ensures Words(c, entries + [e])
  {
  }

  lemma WordsAt(c: Config, entries: seq<Entry>, j: nat)
    requires Words(c, entries) && j < |entries|
    ensures |entries[j]| == c.layout.n
  {
  }

  lemma PublishSlots(c: Config, s: State)
    requires Inv(c, s) && s.host.PushWrite? && s.host.written == |s.host.request|
    ensures Slots(c, HostNext(c, s))
  {
    hide Stored, Offset, Holds, Layout.Pointer, Layout.Advance, Layout.RequestSlot, Layout.ResponseSlot, FirmwareOk;
    hide NoLostWakeup, Pointers;
    var k, e := |s.requests|, s.host.request;
    var x := c.layout.Advance(s.host.wptr);
    assert e[..|e|] == e;
    StoredGrows(c, s.mem, Requests, s.requests, e, |s.served|);
    HeaderFrame(c, s.mem, 0, x, Requests, s.requests + [e], |s.served|, k + 1);
    HeaderFrame(c, s.mem, 0, x, Responses, s.responses, s.popped, |s.responses|);
  }

  lemma PublishTally(c: Config, s: State)
    requires Inv(c, s) && s.host.PushWrite? && s.host.written == |s.host.request|
    ensures Tally(c, HostNext(c, s)) && NoLostWakeup(HostNext(c, s))
  {
    hide Slots, Words, Offset, Holds, Layout.Pointer, Layout.Advance, Layout.RequestSlot, Layout.ResponseSlot, Full;
    assert s.served == (s.requests + [s.host.request])[..|s.served|];
    WordsGrow(c, s.requests, s.host.request);
  }

  lemma PublishPointers(c: Config, s: State)
    requires Inv(c, s) && s.host.PushWrite? && s.host.written == |s.host.request|
    ensures Pointers(c, HostNext(c, s)) && HostOk(c, HostNext(c, s)) && FirmwareOk(c, HostNext(c, s))
  {
    hide Slots, Words, Offset, Holds, Layout.Pointer, Layout.Advance, Layout.RequestSlot, Layout.ResponseSlot, Full;
    AdvancePointer(c.layout, c.requestStart + |s.requests|);
    if s.firmware.Reply? {
      KeepReplyHeader(c, s, 0, c.layout.Advance(s.host.wptr));
    }
  }

  lemma PublishStep(c: Config, s: State)
    requires Inv(c, s) && s.host.PushWrite? && s.host.written == |s.host.request|
    ensures Inv(c, HostNext(c, s))
  {
    hide Tally, Pointers, Slots, HostOk, FirmwareOk, NoLostWakeup, HostNext;
    PublishSlots(c, s);
    PublishTally(c, s);
    PublishPointers(c, s);
  }

  lemma RaiseStep(c: Config, s: State)
    requires Inv(c, s) && (s.host.RaiseRead? || s.host.RaiseWrite?)
    ensures Inv(c, HostNext(c, s))
  {
    hide Stored, Words, Offset, Holds, Layout.Pointer, Layout.Advance, Layout.RequestSlot, Layout.ResponseSlot, Full;
  }

  lemma PopPollStep(c: Config, s: State)
    requires Inv(c, s) && (s.host.PopReadRptr? || s.host.PopPoll?)
    ensures Inv(c, HostNext(c, s))
  {
    hide Stored, Words, Offset, Holds, Layout.Pointer, Layout.Advance, Layout.RequestSlot, Layout.ResponseSlot, Full;
    PointersDiffer(c.layout, c.responseStart + s.popped, c.responseStart + |s.responses|);
  }

  lemma StoredWord(c: Config, mem: seq<nat>, ring: Ring, entries: seq<Entry>, lo: nat, hi: nat, j: nat, i: nat)
    requires c.layout.Valid() && Stored(c, mem, ring, entries, lo, hi) && lo <= j < hi && i < |entries[j]|
    ensures Offset(c, ring, j) + i < |mem| && mem[Offset(c, ring, j) + i] == entries[j][i]
  {
    hide Offset;
    var o, e := Offset(c, ring, j), entries[j];
    assert Holds(mem, o, e);
    assert mem[o..o + |e|][i] == e[i];
  }

  lemma PrefixGrows(words: Entry, e: Entry)
    requires words <= e && |words| < |e|
    ensures words + [e[|words|]] <= e
  {
  }

  lemma PopWordStep(c: Config, s: State)
    requires Inv(c, s) && s.host.PopRead? && |s.host.words| < c.layout.n
    ensures Inv(c, HostNext(c, s))
  {
    hide Stored, Offset, Holds, Layout.Pointer, Layout.Advance, Layout.RequestSlot, Layout.ResponseSlot, Full;
    PointerSlot(c, s.popped);
    StoredWord(c, s.mem, Responses, s.responses, s.popped, |s.responses|, s.popped, |s.host.words|);
    PrefixGrows(s.host.words, s.responses[s.popped]);
  }

  lemma StoredShrinks(c: Config, mem: seq<nat>, ring: Ring, entries: seq<Entry>, lo: nat, lo': nat, hi: nat)
    requires c.layout.Valid() && lo <= lo' && Stored(c, mem, ring, entries, lo, hi)
    ensures Stored(c, mem, ring, entries, lo', hi)
  {
  }

  lemma AdvanceSlots(c: Config, s: State)
    requires Inv(c, s) && s.host.PopRead? && |s.host.words| >= c.layout.n
    ensures Slots(c, HostNext(c, s))
  {
    hide Stored, Offset, Holds, Layout.Pointer, Layout.Advance, Layout.RequestSlot, Layout.ResponseSlot, FirmwareOk;
    hide NoLostWakeup, Pointers;
    var x := c.layout.Advance(s.host.rptr);
    StoredShrinks(c, s.mem, Responses, s.responses, s.popped, s.popped + 1, |s.responses|);
    HeaderFrame(c, s.mem, 1, x, Requests, s.requests, |s.served|, |s.requests|);
    HeaderFrame(c, s.mem, 1, x, Responses, s.responses, s.popped + 1, |s.responses|);
  }

  lemma PoppedWhole(c: Config, s: State)
    requires Inv(c, s) && s.host.PopRead? && |s.host.words| >= c.layout.n
    ensures s.host.words == s.responses[s.popped]
  {
    hide Slots, Words, Offset, Holds, Layout.Pointer, Layout.Advance, Layout.RequestSlot, Layout.ResponseSlot, Full;
    WordsAt(c, s.responses, s.popped);
  }

  lemma AdvanceTally(c: Config, s: State)
    requires Inv(c, s) && s.host.PopRead? && |s.host.words| >= c.layout.n
    ensures Tally(c, HostNext(c, s)) && NoLostWakeup(HostNext(c, s))
  {
    hide Slots, Words, Offset, Holds, Layout.Pointer, Layout.Advance, Layout.RequestSlot, Layout.ResponseSlot, Full;
  }

  lemma AdvancePointers(c: Config, s: State)
    requires Inv(c, s) && s.host.PopRead? && |s.host.words| >= c.layout.n
    ensures Pointers(c, HostNext(c, s)) && HostOk(c, HostNext(c, s)) && FirmwareOk(c, HostNext(c, s))
  {
    hide Slots, Words, Offset, Holds, Layout.Pointer, Layout.Advance, Layout.RequestSlot, Layout.ResponseSlot, Full;
    AdvancePointer(c.layout, c.responseStart + s.popped);
    PoppedWhole(c, s);
    if s.firmware.Reply? {
      KeepReplyHeader(c, s, 1, c.layout.Advance(s.host.rptr));
    }
  }

  lemma AdvanceStep(c: Config, s: State)
    requires Inv(c, s) && s.host.PopRead? && |s.host.words| >= c.layout.n
    ensures Inv(c, HostNext(c, s))
  {
    hide Tally, Pointers, Slots, HostOk, FirmwareOk, NoLostWakeup, HostNext;
    AdvanceSlots(c, s);
    AdvanceTally(c, s);
    AdvancePointers(c, s);
  }

  lemma HostStepSafe(c: Config, s: State)
    requires Inv(c, s)
    ensures Inv(c, HostNext(c, s))
  {
    hide Inv, HostNext;
    match s.host
    case PushReadWptr(_) => PushReadWptrStep(c, s);
    case PushPoll(_, _) => PushPollStep(c, s);
    case PushWrite(request, _, i) =>
      PushWriteBound(c, s);
      if i < |request| { PushWordStep(c, s); } else { PublishStep(c, s); }
    case RaiseRead(_) => RaiseStep(c, s);
    case RaiseWrite(_) => RaiseStep(c, s);
    case PopReadRptr(_) => PopPollStep(c, s);
    case PopPoll(_, _) => PopPollStep(c, s);
    case PopRead(_, _, words) =>
      if |words| < c.layout.n { PopWordStep(c, s); } else { AdvanceStep(c, s); }
    case _ => RestStep(c, s);
  }

  lemma PushWriteBound(c: Config, s: State)
    requires Inv(c, s) && s.host.PushWrite?
    ensures s.host.written <= |s.host.request|
  {
  }

  lemma RestStep(c: Config, s: State)
    requires Inv(c, s) && (s.host.Idle? || s.host.Done?)
    ensures HostNext(c, s) == s
  {
  }

  // ------------------------------------------------------- firmware steps

  lemma WakeStep(c: Config, s: State)
    requires Inv(c, s) && (s.firmware.Asleep? || s.firmware.Check?)
    ensures Inv(c, FirmwareNext(c, s))
  {
    hide Stored, Words, Offset, Holds, Layout.Pointer, Layout.Advance, Layout.RequestSlot, Layout.ResponseSlot, Full;
  }

  lemma SeenStep(c: Config, s: State)
    requires Inv(c, s) && s.firmware.Seen?
    ensures Inv(c, FirmwareNext(c, s))
  {
    hide Stored, Words, Offset, Holds, Layout.Pointer, Layout.Advance, Layout.RequestSlot, Layout.ResponseSlot, Full;
    PointersDiffer(c.layout, c.requestStart + |s.served|, c.requestStart + s.firmware.count);
  }

  lemma TakeWordStep(c: Config, s: State)
    requires Inv(c, s) && s.firmware.Take? && |s.firmware.words| < c.layout.n
    ensures Inv(c, FirmwareNext(c, s))
  {
    hide Stored, Offset, Holds, Layout.Pointer, Layout.Advance, Layout.RequestSlot, Layout.ResponseSlot, Full;
    PointerSlot(c, |s.served|);
    StoredWord(c, s.mem, Requests, s.requests, |s.served|, |s.requests|, |s.served|, |s.firmware.words|);
    PrefixGrows(s.firmware.words, s.requests[|s.served|]);
  }

  lemma KeepPush(c: Config, s: State, k: nat, i: nat, x: nat)
    requires Inv(c, s) && s.host.PushWrite? && i < c.layout.n && Offset(c, Responses, k) + i < |s.mem|
    ensures var words := s.host.request[..s.host.written];
            Holds(s.mem[Offset(c, Responses, k) + i := x], Offset(c, Requests, |s.requests|), words)
  {
    hide Stored, Words, Offset, Holds, Layout.Pointer, Layout.Advance, Layout.RequestSlot, Layout.ResponseSlot, Full;
    OffsetsApart(c, Requests, |s.requests|, Responses, k);
    var words := s.host.request[..s.host.written];
    WriteKeeps(s.mem, Offset(c, Responses, k) + i, x, Offset(c, Requests, |s.requests|), words);
  }

  lemma KeepPushHeader(c: Config, s: State, a: nat, x: nat)
    requires Inv(c, s) && s.host.PushWrite? && a < c.layout.headerSize && a < |s.mem|
    ensures Holds(s.mem[a := x], Offset(c, Requests, |s.requests|), s.host.request[..s.host.written])
  {
    hide Stored, Words, Offset, Holds, Layout.Pointer, Layout.Advance, Layout.RequestSlot, Layout.ResponseSlot, Full;
    OffsetInArea(c, Requests, |s.requests|);
    WriteKeeps(s.mem, a, x, Offset(c, Requests, |s.requests|), s.host.request[..s.host.written]);
  }

  lemma TakeAckSlots(c: Config, s: State)
    requires Inv(c, s) && s.firmware.Take? && |s.firmware.words| >= c.layout.n
    ensures Slots(c, FirmwareNext(c, s))
  {
    hide Stored, Offset, Holds, Layout.Pointer, Layout.Advance, Layout.RequestSlot, Layout.ResponseSlot, HostOk;
    hide NoLostWakeup, Pointers;
    var x := c.layout.Advance(s.mem[4]);
    StoredShrinks(c, s.mem, Requests, s.requests, |s.served|, |s.served| + 1, |s.requests|);
    HeaderFrame(c, s.mem, 4, x, Requests, s.requests, |s.served| + 1, |s.requests|);
    HeaderFrame(c, s.mem, 4, x, Responses, s.responses, s.popped, |s.responses|);
  }

  lemma TakeAckTally(c: Config, s: State)
    requires Inv(c, s) && s.firmware.Take? && |s.firmware.words| >= c.layout.n
    ensures Tally(c, FirmwareNext(c, s)) && NoLostWakeup(FirmwareNext(c, s))
  {
    hide Slots, Words, Offset, Holds, Layout.Pointer, Layout.Advance, Layout.RequestSlot, Layout.ResponseSlot, Full;
    WordsAt(c, s.requests, |s.served|);
    assert s.firmware.words == s.requests[|s.served|];
    assert s.requests[..|s.served| + 1] == s.requests[..|s.served|] + [s.requests[|s.served|]];
  }

  lemma TakeAckPointers(c: Config, s: State)
    requires Inv(c, s) && s.firmware.Take? && |s.firmware.words| >= c.layout.n
    ensures Pointers(c, FirmwareNext(c, s)) && HostOk(c, FirmwareNext(c, s)) && FirmwareOk(c, FirmwareNext(c, s))
  {
    hide Slots, Words, Offset, Holds, Layout.Pointer, Layout.Advance, Layout.RequestSlot, Layout.ResponseSlot, Full;
    AdvancePointer(c.layout, c.requestStart + |s.served|);
    if s.host.PushWrite? {
      KeepPushHeader(c, s, 4, c.layout.Advance(s.mem[4]));
    }
  }

  lemma TakeAckStep(c: Config, s: State)
    requires Inv(c, s) && s.firmware.Take? && |s.firmware.words| >= c.layout.n
    ensures Inv(c, FirmwareNext(c, s))
  {
    hide Tally, Pointers, Slots, HostOk, FirmwareOk, NoLostWakeup, FirmwareNext;
    TakeAckSlots(c, s);
    TakeAckTally(c, s);
    TakeAckPointers(c, s);
  }

  lemma ReplyWordStep(c: Config, s: State)
    requires Inv(c, s) && s.firmware.Reply? && s.firmware.written < |s.firmware.response|
    ensures Inv(c, FirmwareNext(c, s))
  {
    hide Stored, Words, Offset, Holds, Layout.Pointer, Layout.Advance, Layout.RequestSlot, Layout.ResponseSlot, Full;
    var k, i, x := |s.responses|, s.firmware.written, s.firmware.response[s.firmware.written];
    PointerSlot(c, k);
    OffsetInArea(c, Responses, k);
    SlotFrame(c, s.mem, Responses, k, i, x, Requests, s.requests, |s.served|, |s.requests|);
    SlotFrame(c, s.mem, Responses, k, i, x, Responses, s.responses, s.popped, |s.responses|);
    WriteExtends(s.mem, Offset(c, Responses, k), s.firmware.response, i);
    if s.host.PushWrite? {
      KeepPush(c, s, k, i, x);
    }
  }

  lemma ReplyPublishStep(c: Config, s: State)
    requires Inv(c, s) && s.firmware.Reply? && s.firmware.written >= |s.firmware.response|
    ensures Inv(c, FirmwareNext(c, s))
  {
    hide Stored, Offset, Holds, Layout.Pointer, Layout.Advance, Layout.RequestSlot, Layout.ResponseSlot, Full;
    var k, e := |s.responses|, s.firmware.response;
    var x := c.layout.Advance(s.mem[5]);
    AdvancePointer(c.layout, c.responseStart + k);
    assert e[..|e|] == e;
    StoredGrows(c, s.mem, Responses, s.responses, e, s.popped);
    HeaderFrame(c, s.mem, 5, x, Requests, s.requests, |s.served|, |s.requests|);
    HeaderFrame(c, s.mem, 5, x, Responses, s.responses + [e], s.popped, k + 1);
    if s.host.PushWrite? {
      KeepPushHeader(c, s, 5, x);
    }
  }

  lemma FirmwareStepSafe(c: Config, s: State)
    requires Inv(c, s)
    ensures Inv(c, FirmwareNext(c, s))
  {
    hide Inv;
    match s.firmware
    case Asleep => WakeStep(c, s);
    case Check => WakeStep(c, s);
    case Seen(_, _) => SeenStep(c, s);
    case Take(words) =>
      if |words| < c.layout.n { TakeWordStep(c, s); } else { TakeAckStep(c, s); }
    case Reply(response, i) =>
      if i < |response| { ReplyWordStep(c, s); } else { ReplyPublishStep(c, s); }
  }

  // ------------------------------------------------------- the other actions

  lemma AnswerSafe(c: Config, s: State, response: Entry)
    requires Inv(c, s)
    ensures Inv(c, Apply(c, s, Answer(response)))
  {
    hide Stored, Words, Offset, Full;
    FullIff(c.layout, c.responseStart + s.popped, c.responseStart + |s.responses|);
    OffsetInArea(c, Responses, |s.responses|);
  }

  lemma SenderSafe(c: Config, s: State, a: Action)
    requires Inv(c, s) && (a.Acquire? || a.GiveUp? || a.Release?)
    ensures Inv(c, Apply(c, s, a))
  {
    hide Stored, Words, Offset, Holds, Layout.Pointer, Layout.Advance, Layout.RequestSlot, Layout.ResponseSlot, Full;
  }

  lemma ActionSafe(c: Config, s: State, a: Action)
    requires Inv(c, s)
    ensures Inv(c, Apply(c, s, a))
  {
    hide Inv, HostNext, FirmwareNext;
    match a
    case Acquire(_) => SenderSafe(c, s, a);
    case HostStep => HostStepSafe(c, s);
    case GiveUp => SenderSafe(c, s, a);
    case Release => SenderSafe(c, s, a);
    case FirmwareStep => FirmwareStepSafe(c, s);
    case Answer(response) => AnswerSafe(c, s, response);
  }

  /** Safety over whole runs: whatever host and firmware do, in whatever order. */
  lemma {:induction false} RunSafe(c: Config, s: State, actions: seq<Action>)
    requires Inv(c, s)
    ensures Inv(c, Run(c, s, actions))
    decreases |actions|
  {
    hide Tally, Pointers, Slots, HostOk, FirmwareOk, NoLostWakeup, Apply;
    if actions != [] {
      ActionSafe(c, s, actions[0]);
      RunSafe(c, Apply(c, s, actions[0]), actions[1..]);
    }
  }

  lemma InitSafe(c: Config, s: State)
    requires Init(c, s)
    ensures Inv(c, s)
  {
    ModSmall(c.requestStart, 2 * c.layout.queueSize);
    ModSmall(c.responseStart, 2 * c.layout.queueSize);
  }

  // ------------------------------------------------------- what the invariant means

  /** The request ring's occupancy, as the two pointers in memory show it, is the number of
      requests sent but not yet taken, and never exceeds the ring. */
  lemma RequestRingBounded(c: Config, s0: State, actions: seq<Action>)
    requires Init(c, s0)
    ensures var s := Run(c, s0, actions);
            |s.served| <= |s.requests|
            && Occupancy(s.mem[4], s.mem[0], c.layout.queueSize) == |s.requests| - |s.served| <= c.layout.queueSize
  {
    hide Slots, HostOk, FirmwareOk, NoLostWakeup, Run, Occupancy, Init;
    InitSafe(c, s0);
    RunSafe(c, s0, actions);
    var s := Run(c, s0, actions);
    OccupancyOf(c.requestStart + |s.served|, c.requestStart + |s.requests|, c.layout.queueSize);
  }

  /** Likewise for the response ring and the responses not yet popped. */
  lemma ResponseRingBounded(c: Config, s0: State, actions: seq<Action>)
    requires Init(c, s0)
    ensures var s := Run(c, s0, actions);
            s.popped <= |s.responses|
            && Occupancy(s.mem[1], s.mem[5], c.layout.queueSize) == |s.responses| - s.popped <= c.layout.queueSize
  {
    hide Slots, HostOk, FirmwareOk, NoLostWakeup, Run, Occupancy, Init;
    InitSafe(c, s0);
    RunSafe(c, s0, actions);
    var s := Run(c, s0, actions);
    OccupancyOf(c.responseStart + s.popped, c.responseStart + |s.responses|, c.layout.queueSize);
  }

  /** While a request is being written its slot is disjoint from every slot the firmware may
      still read, even though the host's view of the read pointer may be old. */
  lemma FilledSlotIsInvisible(c: Config, s0: State, actions: seq<Action>, j: nat)
    requires Init(c, s0)
    requires var s := Run(c, s0, actions); s.host.PushWrite? && |s.served| <= j < |s.requests|
    ensures var s := Run(c, s0, actions);
            var filling, visible := c.layout.RequestSlot(s.host.wptr), Offset(c, Requests, j);
            filling + c.layout.n <= visible || visible + c.layout.n <= filling
  {
    hide Slots, FirmwareOk, NoLostWakeup, Run, Offset, Init;
    InitSafe(c, s0);
    RunSafe(c, s0, actions);
    var s := Run(c, s0, actions);
    PointerSlot(c, |s.requests|);
    OffsetsApart(c, Requests, j, Requests, |s.requests|);
  }

  /** The firmware has read exactly the requests that were sent, in order and whole. */
  lemma FirmwareReadsWholeRequests(c: Config, s0: State, actions: seq<Action>)
    requires Init(c, s0)
    ensures Run(c, s0, actions).served <= Run(c, s0, actions).requests
  {
    hide Slots, Pointers, HostOk, FirmwareOk, NoLostWakeup, Run, Init;
    InitSafe(c, s0);
    RunSafe(c, s0, actions);
  }

  /** A send that succeeds as pop number k returns response number k, which answers request
      number k; its own request is `lost` places later. So it carries its own reply exactly when
      no earlier send gave up after publishing. */
  lemma ReplyMatchesRequest(c: Config, s0: State, actions: seq<Action>)
    requires Init(c, s0)
    ensures var s := Run(c, s0, actions);
            s.host.Done? && s.host.outcome.Sent? ==>
              && 0 < s.popped <= |s.responses| <= |s.served| && |s.requests| == s.popped + s.lost
              && s.host.outcome.response == s.responses[s.popped - 1]
              && s.served[s.popped - 1] == s.requests[s.popped - 1]
              && s.host.request == s.requests[s.popped - 1 + s.lost]
              && (s.lost == 0 ==> s.served[s.popped - 1] == s.host.request)
  {
    hide Slots, Pointers, FirmwareOk, NoLostWakeup, Run, Init;
    InitSafe(c, s0);
    RunSafe(c, s0, actions);
  }

  /** Once a send has published its request and moved on, the interrupt is up or the firmware is
      awake and will look at the ring again before it sleeps. */
  lemma PublishedRequestIsNoticed(c: Config, s0: State, actions: seq<Action>)
    requires Init(c, s0)
    ensures var s := Run(c, s0, actions);
            |s.served| < |s.requests| && !s.host.RaiseRead? && !s.host.RaiseWrite? ==>
              s.irq || !(s.firmware.Asleep? || (s.firmware.Seen? && s.firmware.wptr == s.mem[4]))
  {
    hide Slots, HostOk, Run, Init;
    InitSafe(c, s0);
    RunSafe(c, s0, actions);
    var s := Run(c, s0, actions);
    if s.firmware.Seen? {
      PointersDiffer(c.layout, c.requestStart + |s.served|, c.requestStart + s.firmware.count);
    }
  }

  /** The record of a run only grows, so entry k keeps its meaning for ever. */
  lemma {:induction false} HistoryGrows(c: Config, s: State, actions: seq<Action>)
    requires Sized(c, s)
    ensures var s' := Run(c, s, actions);
            s.requests <= s'.requests && s.served <= s'.served && s.responses <= s'.responses
            && s.popped <= s'.popped && s.lost <= s'.lost
    decreases |actions|
  {
    if actions != [] {
      StepGrows(c, s, actions[0]);
      HistoryGrows(c, Apply(c, s, actions[0]), actions[1..]);
    }
  }

  lemma StepGrows(c: Config, s: State, a: Action)
    requires Sized(c, s)
    ensures var s' := Apply(c, s, a);
            s.requests <= s'.requests && s.served <= s'.served && s.responses <= s'.responses
            && s.popped <= s'.popped && s.lost <= s'.lost
  {
  }
}
