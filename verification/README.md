# A model of the chip driver, with proofs

This project models the parts of the host-side driver for Tenstorrent chips that are hard to get
right by inspection, and proves what they promise. `dafny verify dfyconfig.toml` checks all of it.

- **Bit fields** (`Bits`, `Fields`, `FieldLaws`, `FieldIo`, `ArcInterrupt`). A byte buffer is read
  as bytes, as a bit string and as a number. The in-place loops of `src/chip/field.rs` are methods
  on arrays, proved against functions on bit strings; the lens laws and the arithmetic are lemmas
  about those functions.
- **The Blackhole message queue** (`QueueLayout`, `QueueModel`, `QueueSafety`, `QueueProgress`,
  `QueueThreads`, `MessageQueue`). Host and firmware are state machines over one memory, one word
  access a step, and every theorem is about every interleaving from rest. The host's methods take exactly the
  model's steps, and many threads under the ARC lock refine its single sender.
- **The single-slot ARC mailbox** (`MailboxModel`, `MailboxAbandoned`, `MailboxWords`, `Mailbox`), in
  the same two layers, with what happens after a message that nobody waits for, and its words as
  the numbers the source computes.
- **Kernel bring-up** (`StartHandshake`, `Completion`, `LoaderModel`, `LoaderSafety`,
  `LoaderContents`, `LoaderOutcome`, `Loader`, `LoaderStart`): the 1-2-3 start handshake, the
  completion test, and the order and effect of the writes that stop, load, start and wind down a
  set of tiles.
- **Address maps** (`Coords`, `NocGrid`, `WormholeGrid`, `GrayskullGrid`, `Boards`, `Alignment`, `Dma`):
  harvesting masks as tile lists, broadcast rectangles, and power-of-two rounding.

The firmware and the RISC-V cores are not in the repository. What is assumed of them is written
as their steps in the models. The queue firmware takes requests in order and answers them in
order, one response for each and as late as it likes; it writes only header words 4 and 5 and
response slots, waits for room before answering, and clears the interrupt before it drains. The
mailbox firmware writes the return register before the reply word. A core writes 1, waits for 2
and writes 3; finished cores stay finished, a core is started only by a running one whose program
starts it, and the memory of a tile in reset changes only by the host's writes. In the imperative
layer a `script` field fixes what the firmware or the cores do before each host access; the
methods are proved for every script.

Where the code and its description differ, the model follows the code:

- A bit-range `read_field` hands back the whole buffer, not the trimmed slice
  (src/chip/field.rs:143-146). `FieldIo.ExtractIsFieldIff` and `FieldIo.U32RoundTrip` say exactly
  when the u32 read is still the field's value.
- The queue index guard is `>`, so the index equal to the count passes
  (src/chip/blackhole/arc.rs:227). `QueueLayout.QueueInRegionIff` says exactly which indices lie
  in the region.
- The completion count is compared with the five entries of the state list although only the
  present symbols are read, so one to four symbols never complete (src/kernel.rs:266-271).
- A 3 left in the sync word lets a poll report a start that has not happened (src/kernel.rs:75-82).
  `StartHandshake.FoolableIff` shows this is the only way.
- After a mailbox message was given up or not waited for, the next waiting message can return a
  wrong Ok or a wrong rejection (src/chip/wormhole/arc.rs:305-322), exactly unless the abandoned
  one is the sleep message, whose number keeps other messages out until it is answered
  (`MailboxAbandoned.WrongOkIff`, `WrongRejectionIff`). It can take the very reply to the abandoned
  one exactly when moreover their low code bytes agree (`MailboxAbandoned.TookReplyIff`).
- The completion words are read one at a time (src/kernel.rs:260-264). The test can be trusted
  exactly when no core's program starts a core before it in the list
  (`Completion.SoundIffForward`).
- The all-tiles load stops tiles on network 0 and writes the image on network 1
  (src/chip.rs:313, src/chip.rs:340). On Wormhole the first leaves out column 0, so tiles there are
  written without having been stopped (`Boards.WormholeUnderResetIff`).
- The Grayskull grid cannot be computed when one of the harvest bits 11 to 30 is set, because the
  row table is indexed out of range (src/chip/grayskull/noc_endpoints.rs:48-53).
- The mask rounding is right for every address exactly when the alignment is a power of two
  (src/chip/noc.rs:74-82, src/chip/dma.rs:87-88).

## Model

| member | source | states |
|---|---|---|
| `Fields.RightShift` | src/chip/field.rs:2-27 | the in-place shift turns the buffer's bit string into the same string moved down by `shift`, zero-filled, for every length and shift |
| `Fields.MoveBytes` | src/chip/field.rs:13-17 | the byte loop alone shifts by eight times the byte count |
| `Fields.ShiftBits` | src/chip/field.rs:19-26 | the downward carry pass alone shifts by the remaining one to seven bits |
| `Fields.ZeroFill` | src/chip/field.rs:6-11 | a shift past the end clears every bit |
| `Fields.ShiftRightAdds` | src/chip/field.rs:2-27 | shifts compose additively |
| `Fields.ShiftRightDivides` | src/chip/field.rs:2-27 | a shift by `n` divides the buffer's number by 2^n |
| `Fields.MaskOffInPlace` | src/chip/field.rs:64-74 | only the one byte holding the bit is cut, every other byte is kept, and the slice length is the capped top byte count |
| `Fields.ReadModify` | src/chip/field.rs:112-118 | the returned slice is the number `V / 2^lower mod 2^w`; the whole buffer is the shifted string with one byte cut |
| `Fields.ExtractedSlice` | src/chip/field.rs:112-118 | the slice holds the field's bits, then zeros, and nothing else |
| `Fields.FieldValue` | src/chip/field.rs:112-118 | a stretch of bits of a buffer is its number divided and reduced |
| `Fields.WriteModify` | src/chip/field.rs:76-110 | the carry/mask loop with its special first round replaces bits lower..=upper by the low bits of the value, zero-extended when short, and keeps every other bit; all indices are in range and the count strictly falls |
| `Fields.WrittenByteBit` | src/chip/field.rs:88-109 | each bit of each byte the loop stores: a value bit inside the field, the old bit outside |
| `FieldLaws.WriteIsExact` | src/chip/field.rs:76-110 | in numbers: what is below and above the field stays, the value mod 2^w goes in between |
| `FieldLaws.ReadAfterWrite` | src/chip/field.rs:76-118 | reading a field after writing it gives the value mod 2^w |
| `FieldLaws.WriteBackIsIdentity` | src/chip/field.rs:76-118 | writing back what was read, the slice or the whole buffer, changes nothing |
| `FieldLaws.SecondWriteHidesFirst` | src/chip/field.rs:76-110 | a second write to the field hides the first |
| `FieldLaws.DisjointWritesCommute` | src/chip/field.rs:76-110 | writes to disjoint fields commute |
| `FieldLaws.DisjointWriteKeepsField` | src/chip/field.rs:76-118 | a write does not affect reads of a disjoint field |
| `FieldLaws.SpliceUsesLowBits` | src/chip/field.rs:76-110 | values that agree on the field's width write the same |
| `FieldIo.ReadField` | src/chip/field.rs:130-152 | too short a buffer is untouched and None; otherwise the register bytes are loaded, cut to the field in place, and the whole buffer is handed back for a bit range |
| `FieldIo.WriteField` | src/chip/field.rs:154-179 | a short value is refused with memory unchanged; otherwise exactly the field's bits of the device memory change |
| `FieldIo.PatchedBits` | src/chip/field.rs:167-172 | writing the whole scratch buffer back changes only the field's bits, although more bytes are written |
| `FieldIo.ReadFieldU32` | src/chip/field.rs:181-190 | the u32 is the number in the whole four-byte buffer, zero when the field is wider than four bytes |
| `FieldIo.WriteFieldU32` | src/chip/field.rs:192-208 | the u32 write as an edit of the memory's bits, nothing when the field is wider than four bytes |
| `FieldIo.WriteFieldVec` | src/chip/field.rs:210-219 | the vector write as an edit of the memory's bits |
| `FieldIo.WriteThenRead` | src/chip/field.rs:130-179 | after a write, a read into any buffer starts with the value mod 2^w in its low w/8 + 1 bytes, if and only if the buffer agrees with the value where the field reaches past its register (no field inside its register does) |
| `FieldIo.ExtractIsFieldIff` | src/chip/field.rs:143-146 | the number in the whole buffer is the field's value if and only if the register bits from `lower + 8 * (w / 8 + 1)` up are clear |
| `FieldIo.U32RoundTrip` | src/chip/field.rs:181-208 | a u32 written and read back is the value mod 2^w if and only if those register bits were clear before and the value has no bits where the field reaches past its register |
| `FieldIo.WholeRead` | src/chip/field.rs:148-151 | a whole register of at most four bytes reads as the number its bytes stand for |
| `FieldIo.WholeRoundTrip` | src/chip/field.rs:181-208 | a u32 written to it reads back cut to the register's size |
| `ArcInterrupt.TriggerInt` | src/chip/blackhole/arc.rs:105-130 | for every memory and every field: true when the field's lowest bit was clear, and afterwards that bit is set and no other bit of the memory differs |
| `ArcInterrupt.WriteBackWithLowBit` | src/chip/blackhole/arc.rs:119-127 | writing a read field back with its lowest bit set changes that one bit |
| `ArcInterrupt.PendingBit` | src/chip/blackhole/arc.rs:105-117 | bit 0 of the first byte read is the interrupt bit of the memory |
| `ArcInterrupt.DirectRaiseAgrees` | src/chip/wormhole/arc.rs:254-265 | the direct edit of the older chips tests and sets bit 16 of the same bit string, so it is the same operation |
| `ArcInterrupt.RaisingAddsWeight` | src/chip/blackhole/arc.rs:105-130 | in numbers, raising adds 2^lower |
| `QueueLayout.SlotsApart` | src/chip/blackhole/arc.rs:161-167 | distinct slots do not overlap, avoid the header and end inside the queue's area |
| `QueueLayout.RingsApart` | src/chip/blackhole/arc.rs:161-206 | every request slot is apart from every response slot, for all pointer values |
| `QueueLayout.RingsFill` | src/chip/blackhole/arc.rs:161-206 | the rings fill the area: requests from the end of the header, each entry right after the one before it, the first after the last, then the responses, whose last entry ends the area |
| `QueueLayout.QueuesFill` | src/chip/blackhole/arc.rs:79-82 | the areas follow one another from the base of the region |
| `QueueLayout.QueuesApart` | src/chip/blackhole/arc.rs:79-103 | words of different queues never share an address, and queues below the count lie in the region |
| `QueueLayout.QueueInRegionIff` | src/chip/blackhole/arc.rs:227-232 | a queue lies in the region exactly when its index is below the count; the guard lets one more through |
| `QueueLayout.FullTest` | src/chip/blackhole/arc.rs:145-150 | the absolute-difference test says full exactly when modular occupancy is the ring length, for all pointer values |
| `QueueLayout.OccupancyOf` | src/chip/blackhole/arc.rs:145-168 | pointers modulo twice the ring length determine the distance of two counts at most a ring apart |
| `QueueSafety.HostStepSafe` | src/chip/blackhole/arc.rs:132-212 | every access of a sending thread keeps the queue's invariant |
| `QueueSafety.RunSafe` | src/chip/blackhole/arc.rs:132-239 | every interleaving of host and firmware keeps it |
| `QueueSafety.RequestRingBounded` | src/chip/blackhole/arc.rs:139-170 | over any run the occupancy shown by the two pointers is the number of untaken requests and never exceeds the ring |
| `QueueSafety.ResponseRingBounded` | src/chip/blackhole/arc.rs:182-209 | likewise the response ring shows the responses not yet popped, never more than the ring |
| `QueueSafety.FilledSlotIsInvisible` | src/chip/blackhole/arc.rs:161-167 | the slot being filled is disjoint from every slot the firmware may still read, although the read pointer may be stale |
| `QueueSafety.FirmwareReadsWholeRequests` | src/chip/blackhole/arc.rs:161-169 | what the firmware has read is a prefix of what was sent, word for word |
| `QueueSafety.PublishedRequestIsNoticed` | src/chip/blackhole/arc.rs:167-172 | no lost wakeup: an untaken published request finds the interrupt up or the firmware awake, once its sender has passed the interrupt |
| `QueueProgress.PublishedRequestIsTaken` | src/chip/blackhole/arc.rs:167-172 | progress: from every such state firmware steps alone take the oldest untaken request, whole |
| `QueueProgress.NextAdvances` | src/chip/blackhole/arc.rs:167-172 | each firmware step on the way takes the request or comes nearer to it, and keeps it waiting meanwhile |
| `QueueSafety.ReplyMatchesRequest` | src/chip/blackhole/arc.rs:175-239 | the k-th pop returns the k-th response; the request it belongs to is off by the number of sends given up after publishing |
| `QueueSafety.HistoryGrows` | src/chip/blackhole/arc.rs:132-212 | requests, responses and pops recorded by a run are never revised |
| `QueueThreads.ThreadStepRefines` | src/chip/blackhole/arc.rs:221-226 | with the lock held across push and pop, a step of any thread is a step of the single sender or invisible |
| `QueueThreads.ThreadsSafe` | src/chip/blackhole/arc.rs:214-239 | mutual exclusion and the queue invariant hold over any run of any number of threads |
| `QueueThreads.ThreadGetsOwnReply` | src/chip/blackhole/arc.rs:214-239 | a thread whose send succeeded holds the reply to its own request when no send gave up after publishing |
| `MessageQueue.ArcQueue.Qread32` | src/chip/blackhole/arc.rs:84-90 | a read takes the model's next step and returns the word at that moment |
| `MessageQueue.ArcQueue.Qwrite32` | src/chip/blackhole/arc.rs:91-103 | a write takes the model's next step and changes that word only |
| `MessageQueue.ArcQueue.TriggerInt` | src/chip/blackhole/arc.rs:105-130 | the read and the write of the interrupt register as two steps: true, and raised, exactly when none was pending at the read |
| `MessageQueue.ArcQueue.PushRequest` | src/chip/blackhole/arc.rs:132-173 | success appends exactly this request to those published; it succeeds exactly when the ring had room at its last poll, so always when it had room at the start, and it times out only after every one of its polls found it full; a timeout publishes nothing |
| `MessageQueue.ArcQueue.AwaitRoom` | src/chip/blackhole/arc.rs:142-159 | the polling part of a push: goes on exactly when the ring has room, gives up after all its polls |
| `MessageQueue.ArcQueue.PopResponse` | src/chip/blackhole/arc.rs:175-212 | success takes one response off the ring; it succeeds exactly when one was there at its last poll, so always when one was there at the start, and it times out only after all its polls; a timeout takes none |
| `MessageQueue.ArcQueue.AwaitResponse` | src/chip/blackhole/arc.rs:184-195 | the polling part of a pop: goes on exactly when there is a response, gives up after all its polls |
| `MessageQueue.ArcQueue.SendMessage` | src/chip/blackhole/arc.rs:214-239 | which of the outcomes comes about, and their effects: out of range exactly by the index, a push timeout exactly on a full ring, a pop timeout exactly with no response there; a response is number `popped`, and answers this request when nothing was lost |
| `MessageQueue.AccessInArea` | src/chip/blackhole/arc.rs:132-212 | every word a send touches lies inside the queue's area |
| `MessageQueue.FullSeen` | src/chip/blackhole/arc.rs:145-150 | the pointers a push polls show a full ring exactly when the untaken requests fill it |
| `MessageQueue.ResponseSeen` | src/chip/blackhole/arc.rs:184-189 | the pointers a pop polls differ exactly when a response is there |
| `MessageQueue.DoneMatches` | src/chip/blackhole/arc.rs:235-238 | a finished send holds the last response popped |
| `MailboxModel.RequestIsNotAReply` | src/chip/wormhole/arc.rs:85-86 | for every message, raw ones included, the host's own word passes neither the success nor the error test |
| `MailboxModel.ReplyWordReads` | src/chip/wormhole/arc.rs:308-316 | a success reply passes the test of exactly the messages with its low code byte, and decodes to its return code |
| `MailboxModel.RaiseAndClear` | src/chip/wormhole/arc.rs:254-265 | raising sets the pending bit, clearing undoes it and keeps the rest |
| `MailboxModel.RunKeeps` | src/chip/wormhole/arc.rs:273-326 | every interleaving keeps the mailbox's invariant |
| `MailboxModel.ReplyIsToThisMessage` | src/chip/wormhole/arc.rs:305-322 | with nothing abandoned but the sleep message, reply number k answers message number k, and an Ok or a rejection is what the reply with the number of this very message says |
| `MailboxModel.InterruptNeverFails` | src/chip/wormhole/arc.rs:301-303 | nor does any such run come to a failed interrupt, or within one step of it |
| `MailboxAbandoned.ResultIsSomeReply` | src/chip/wormhole/arc.rs:305-322 | in every run, whatever was abandoned and however many replies there were, an Ok was read from an accepted reply with the low code byte of the message, and a rejection from a rejection |
| `MailboxAbandoned.WrongOkIff` | src/chip/wormhole/arc.rs:288-322 | after a message, the next one can end with an Ok that no reply to it says exactly when it waits and the first is not the sleep message, whatever the low code bytes |
| `MailboxAbandoned.WrongRejectionIff` | src/chip/wormhole/arc.rs:288-322 | the same condition for a rejection that no reply to it says |
| `MailboxAbandoned.TookReplyIff` | src/chip/wormhole/arc.rs:288-322 | its Ok can be read from the reply to the first exactly when moreover their low code bytes agree, over any number of replies |
| `MailboxAbandoned.FalseOk` | src/chip/wormhole/arc.rs:254-322 | the run of a wrong Ok, for any two such messages: the firmware reads its own reply word as a message |
| `MailboxAbandoned.StaleReply` | src/chip/wormhole/arc.rs:305-322 | the run in which the second message returns the reply to the abandoned first, for any reply |
| `MailboxAbandoned.StaleRejection` | src/chip/wormhole/arc.rs:314-316 | the run in which it returns the rejection of the abandoned first |
| `MailboxAbandoned.AfterSleepRight` | src/chip/wormhole/arc.rs:288-322 | after the sleep message alone every result is read from the own reply and says what it says |
| `Mailbox.ArcMailbox.TriggerFwInt` | src/chip/wormhole/arc.rs:254-265 | true, and raised, exactly when no interrupt was pending at the read |
| `Mailbox.ArcMailbox.ArcMsg` | src/chip/wormhole/arc.rs:273-326 | which of the outcomes comes about, each exactly by what one read found: the sleep code, a pending interrupt, the reply of the last poll, or that nothing was to be awaited; a timeout only after all its polls; and which of them abandon the message. With nothing but the sleep message abandoned, the interrupt does not fail and a result is what the one new reply, to this message, says |
| `Mailbox.ArcMailbox.AwaitReply` | src/chip/wormhole/arc.rs:305-323 | the polling part: the last poll decides, an accepted reply before the error reply, and a timeout comes only after all its polls |
| `Mailbox.ArcMailbox.ReadMsgReg` | src/chip/wormhole/arc.rs:288-308 | a read of the message register takes the model's next step |
| `Mailbox.ArcMailbox.WriteReg` | src/chip/wormhole/arc.rs:293-299 | the argument goes to the return register first, then the code to the message register |
| `MailboxWords.ArgumentWord` | src/chip/wormhole/arc.rs:293-297 | in numbers, the argument word is the first argument plus 2^16 times the second |
| `MailboxWords.RequestBits` | src/chip/wormhole/arc.rs:85-86 | each bit of the request word is that of 0xaa00 or of the message's 16-bit number |
| `MailboxWords.RequestNumber` | src/chip/wormhole/arc.rs:299 | the request word is the 16-bit code, the upper half zero |
| `MailboxWords.AsleepNumber` | src/chip/wormhole/arc.rs:288-291 | the firmware is asleep exactly when the register is 0xaa55 modulo 2^16 |
| `MailboxWords.SuccessNumber` | src/chip/wormhole/arc.rs:309 | a reply is a success exactly when the register modulo 2^16 is the code modulo 2^8 |
| `MailboxWords.ErrorNumber` | src/chip/wormhole/arc.rs:282-314 | it is the error reply exactly when it is 0xffff_ffff |
| `MailboxWords.ReturnCodeNumber` | src/chip/wormhole/arc.rs:310 | the return code is the register divided by 2^16 |
| `StartHandshake.HostNeverOverwritesThree` | src/kernel.rs:73-82 | from any initial word but 3, a 3 in memory was written by the core and stays, over any interleaving of polls |
| `StartHandshake.StartedMeansStarted` | src/kernel.rs:66-89 | a poll reports a start only if the core has written 3, the symbol is absent, or a state word was seen non-zero |
| `StartHandshake.StartIsReported` | src/kernel.rs:66-89 | the other half: once the core has written 3, no poll begun from then on answers no, in any interleaving |
| `StartHandshake.HandshakeCompletes` | src/kernel.rs:66-89 | progress: once the core has written its 1, every poll begun from then on that saw no state word set leaves it released, in any interleaving, and two steps of its own make it run |
| `StartHandshake.PollAdvances` | src/kernel.rs:66-89 | every access brings a poll nearer to its answer, and nothing the core does delays it |
| `StartHandshake.FoolableIff` | src/kernel.rs:73-86 | some run reports a start that did not happen and that no state word showed if and only if the initial word is 3, whatever the state words |
| `StartHandshake.StaleThreeFoolsPoll` | src/kernel.rs:73-86 | that run, for every layout and content of the state words |
| `StartHandshake.RunKeeps` | README.md:85-91 | the invariant of the 1-2-3 handshake holds in every interleaving with the core |
| `StartHandshake.Tile.StartSync` | src/kernel.rs:66-89 | the poll as code: true only with a started core, no symbol, or a non-zero state; false only with a symbol; true if the core ran when it began, and a core that had written its 1 has been released when it ends |
| `StartHandshake.Tile.ReadState` | src/kernel.rs:140-150 | each state word is read at its own time and counts only when its symbol is present |
| `Completion.AllCompleteIff` | src/kernel.rs:257-272 | the counting test means: no symbols, or all five with a finished core and none running |
| `Completion.CompletionIsStable` | src/kernel.rs:256-272 | once it holds it holds in every later state |
| `Completion.WordByWordTestIsSound` | src/kernel.rs:260-271 | read one word at a time, it still means the tile is quiescent, if no core is started from further down the list |
| `Completion.BackwardStartFoolsTest` | src/kernel.rs:260-271 | for every start that goes backwards in the list, a run in which the test is true and a core is running |
| `Completion.SoundIffForward` | src/kernel.rs:260-271 | the word-by-word test is right in every run if and only if no core starts one before it in the list |
| `Completion.TileMonitor.ReadAll` | src/kernel.rs:257-272 | the test as code, over the symbols that are present: with all five, it passes if the tile was finished when it began and, with no backward start, only if it is finished when it ends; with none it passes, with one to four it never does |
| `Completion.TileMonitor.Wait` | src/kernel.rs:245-254 | with all five symbols, a tile finished when the wait begins is put in reset and, with no backward start, only a finished one is, whatever the cores did since the last read; with none it is put in reset at once, with one to four it never is; it gives up only after all its polls |
| `LoaderModel.ResetValues` | src/loader.rs:39-60 | the bytes of the stop and of every start are the soft-reset masks of the cores, with the stagger bit |
| `LoaderSafety.StoppedStays` | src/loader.rs:93-106 | a stopped tile stays in reset through every write that is no start and avoids the reset register |
| `LoaderSafety.StartReleases` | src/loader.rs:62-83 | a start takes the tile out of reset, whatever its two options |
| `LoaderSafety.NoStartBeforeLoads` | src/chip.rs:303-353 | every load comes after the stops and before every start |
| `LoaderSafety.ImagesLandUnderReset` | src/chip.rs:303-341 | every image write finds every tile that the stop phase reached, target or harvested, with all reset bits set, for every list, repeats included, and for all tiles |
| `LoaderSafety.UnderResetIff` | src/chip.rs:303-341 | in the all-tiles form, an image write finds a tile in reset exactly when the stop broadcast reached it or it was in reset before the call |
| `LoaderSafety.TargetsStopped` | src/chip.rs:303-314 | every target of a call is a tile that the stop phase reaches |
| `LoaderSafety.StopPhaseEnds` | src/chip.rs:306-314 | after a stop phase every tile it reaches is in reset |
| `LoaderSafety.WaitEndsInResetAndIdle` | src/chip.rs:398-441 | the waiting path ends with every target in reset and the chip idle |
| `LoaderSafety.QuickImageUnderReset` | src/loader.rs:427-447 | the single-tile path's image lands while its tile is in reset |
| `LoaderSafety.QuickLoadEnds` | src/loader.rs:427-476 | it ends with the tile in reset, but the chip still busy |
| `LoaderContents.LoadIsOverlay` | src/kernel.rs:291-327 | loading segments, overlapping or not, lays one fixed footprint over the memory |
| `LoaderContents.LoadWrites` | src/kernel.rs:291-327 | at an address that segments cover, a load leaves the byte of the last of them |
| `LoaderContents.LoadLeaves` | src/kernel.rs:291-327 | elsewhere it leaves the memory as it was |
| `LoaderContents.LoadTwice` | src/chip.rs:324-333 | loading an image twice is loading it once |
| `LoaderContents.SegmentsEffect` | src/kernel.rs:291-358 | a run of segment writes changes a tile by the image if it is addressed or reached, and not at all otherwise |
| `LoaderContents.ListEffect` | src/chip.rs:324-333 | a list, repeats included, gives its tiles the image and leaves all others alone |
| `LoaderContents.BroadcastAgrees` | src/kernel.rs:329-358 | on either network, a broadcast and a load of the tile leave the same memory, on any board whose rectangles cover its tiles |
| `LoaderContents.StartedWithImage` | src/chip.rs:303-353 | when the first tile starts, every target holds the image over what it held when stopped |
| `LoaderOutcome.StartTakesEffect` | src/loader.rs:39-83 | the start of a load leaves 0x8004_7000 in the reset register of every tile it is addressed to or reaches, and the tile out of reset |
| `LoaderOutcome.CallLaunches` | src/chip.rs:303-353 | every tile that a call is about is started: some access of it, after all its loads and after the RISC-V reset was deasserted, leaves the tile with that reset word on a busy chip |
| `LoaderOutcome.CallReadies` | src/chip.rs:303-353 | and at some access, after all loads and before all starts, every target is in reset and holds every byte of the image |
| `LoaderOutcome.CallIdlesHeld` | src/chip.rs:413-441 | once a call has started a tile, it sends the chip to sleep only with every target in reset |
| `LoaderOutcome.QuickCallLaunches` | src/loader.rs:427-447 | the single-tile path starts its tile in the same sense |
| `Loader.ChipDevice.Stop` | src/loader.rs:93-106 | leaves the tile in reset, by one write |
| `Loader.ChipDevice.StopAll` | src/loader.rs:52-60 | leaves the chip idle and every tile in reset that the broadcast reaches |
| `Loader.ChipDevice.StartTile` | src/loader.rs:62-83 | takes the tile out of reset for all options, by one write |
| `Loader.ChipDevice.StartAll` | src/loader.rs:39-50 | takes every tile out of reset that the broadcast reaches, for all options |
| `Loader.ChipDevice.KernelLoad` | src/kernel.rs:291-327 | one write per segment, in order |
| `Loader.ChipDevice.KernelLoadAll` | src/kernel.rs:329-358 | one broadcast per segment, in order |
| `Loader.WordBytesValue` | src/chip.rs:374 | the four bytes written for a number stand for it as a u32 |
| `Loader.ChipDevice.ScanStates` | src/kernel.rs:66-72 | reads every state word, one access each: true exactly when all of them were zero |
| `Loader.ChipDevice.StartSync` | src/kernel.rs:66-89 | one poll over the live memory, access by access: with a state word not zero it answers yes after the state reads; otherwise it reads the sync word and, exactly if that is 1, writes 2 and reads it again; it answers whether the last sync word read is 3 |
| `Loader.ChipDevice.AwaitTile` | src/chip.rs:373-383 | first writes the tile its number, where the image has a word for it, then polls until it has seen it started; it gives up only after every one of its polls found it waiting |
| `Loader.ChipDevice.AwaitStart` | src/chip.rs:362-386 | true only if every tile was given its number and then seen started since the call, false only if all polls of one found it waiting; all small writes are tile numbers or due releases |
| `Loader.ChipDevice.StopTile` | src/chip.rs:426-441 | leaves the chip idle and every tile in reset that a stop reaches |
| `Loader.ChipDevice.LoadKernels` | src/chip.rs:303-424 | every target held the image in reset, after all loads and before all starts; every tile it is about was then started; with a sync word every target was given its number and then seen started, unless all polls of one found it waiting; the chip is sent to sleep only with every target in reset again, and the waiting path ends in reset and idle; and the log grows by exactly the load plan around the start polls |
| `LoaderStart.StartIsReal` | src/chip.rs:324-386 | in such a call, if the image sets the sync word to something other than 3, a 3 seen there after the loads was written by the tile's own cores after the loads |
| `Loader.ChipDevice.QuickLoad` | src/loader.rs:427-476 | starts the tile after its loads, saw it started unless all polls found it waiting, with wait leaves it in reset and the chip busy, and extends the log by the single-tile plan |
| `NocGrid.AppendRow` | src/chip/wormhole/noc_endpoints.rs:69-74 | adding a row of cores adds exactly its tiles, each once |
| `NocGrid.ApartOnBoth` | src/chip/wormhole/noc_endpoints.rs:45-50 | the flip to the second network is its own inverse, and tiles apart on one network are apart on both |
| `NocGrid.PopcountMonotone` | src/chip/wormhole/noc_endpoints.rs:66-69 | a mask within another has no more bits, and as many only when equal |
| `WormholeGrid.HarvestTable` | src/chip/wormhole/noc_endpoints.rs:37-42 | the physical row table is the inverse of a closed form from rows to mask bits |
| `WormholeGrid.GoodCores` | src/chip/wormhole/noc_endpoints.rs:64-75 | each unharvested tensix tile once and nothing else, eight for each clear row bit, ordered by row bit and then by column |
| `WormholeGrid.GetGrid` | src/chip/wormhole/noc_endpoints.rs:64-113 | the whole grid for every mask, in order, alignments and fixed tiles included |
| `WormholeGrid.FixedTiles` | src/chip/wormhole/noc_endpoints.rs:86-107 | where ARC and PCI stand and that DRAM fills six banks of three in columns 0 and 5; that Ethernet stands in rows 0 and 6 in the order of the physical columns; the alignments of each |
| `WormholeGrid.FixedApart` | src/chip/wormhole/noc_endpoints.rs:3-30 | the 36 tiles that are not tensix have different addresses on both networks |
| `WormholeGrid.FixedAt` | src/chip/wormhole/noc_endpoints.rs:3-30 | the place of each of them |
| `WormholeGrid.RolesApart` | src/chip/wormhole/noc_endpoints.rs:3-30 | no tensix tile shares an address with a DRAM, Ethernet, ARC or PCI tile on either network |
| `WormholeGrid.MoreHarvested` | src/chip/wormhole/noc_endpoints.rs:64-75 | more mask bits only take tiles away, and take some exactly when a new row bit is set |
| `GrayskullGrid.HarvestTable` | src/chip/grayskull/noc_endpoints.rs:22-25 | the row table read from the far end is the inverse of a closed form |
| `GrayskullGrid.ScanRows` | src/chip/grayskull/noc_endpoints.rs:45-58 | the shifting scan leaves exactly the unharvested rows; it fails if and only if one of bits 11 to 30 is set |
| `GrayskullGrid.RowCount` | src/chip/grayskull/noc_endpoints.rs:45-58 | ten rows less one for each row bit |
| `GrayskullGrid.GoodCores` | src/chip/grayskull/noc_endpoints.rs:60-65 | twelve cores for each row, columns 1 to 12 in order, each tile once, whatever order the rows come in |
| `GrayskullGrid.GetGrid` | src/chip/grayskull/noc_endpoints.rs:45-97 | the whole grid for every readable mask, None for exactly the others |
| `GrayskullGrid.FixedTiles` | src/chip/grayskull/noc_endpoints.rs:76-90 | where ARC and PCI stand, that the DRAM tiles stand in rows 6 and 0 at every third column, and the alignments of each |
| `GrayskullGrid.FixedApart` | src/chip/grayskull/noc_endpoints.rs:5-16 | the ten tiles that are not tensix have different addresses on both networks |
| `GrayskullGrid.RolesApart` | src/chip/grayskull/noc_endpoints.rs:5-16 | no tensix tile shares an address with a DRAM, ARC or PCI tile on either network |
| `GrayskullGrid.MoreHarvested` | src/chip/grayskull/noc_endpoints.rs:45-65 | more mask bits only take tiles away, and take some exactly when a new row bit is set |
| `Boards.SamePlaces` | src/chip/noc.rs:37-44 | the loader's place of a tile on each network is the address the grid gave it |
| `Boards.WormholeReach` | src/chip/wormhole.rs:111-152 | which tiles each broadcast rectangle reaches: all but column 0 on network 0, all on network 1 |
| `Boards.WormholeUnstopped` | src/chip/wormhole.rs:111-152 | the tiles that an all-tiles image reaches and the stop does not are exactly column 0 |
| `Boards.WormholeUnderResetIff` | src/chip.rs:303-341 | so at every image write a tile that ran before the call is in reset exactly when it is not in column 0 |
| `Boards.GrayskullUnstopped` | src/chip/grayskull.rs:111-137 | on Grayskull every tile that the image reaches has been stopped |
| `Boards.WormholeCovers` | src/chip/wormhole.rs:111-117 | both rectangles cover every tensix tile of every mask |
| `Boards.GrayskullCovers` | src/chip/grayskull.rs:111-123 | the full rectangle covers every tensix tile of every readable mask |
| `Boards.WormholeBroadcast` | src/kernel.rs:329-358 | for every mask, network and segment list, each Wormhole tensix tile has the same memory after a broadcast as after its own load |
| `Boards.GrayskullBroadcast` | src/kernel.rs:329-358 | the same on Grayskull |
| `Alignment.AlignUpIsLeast` | src/chip/noc.rs:74-82 | for a power of two, the masked sum is the least aligned address at or above the input |
| `Alignment.ServesPowersOfTwo` | src/chip/noc.rs:74-82 | it is that for every input if and only if the alignment is a power of two |
| `Alignment.AlignUpIsClose` | src/chip/dma.rs:87-89 | for every alignment the result is at or above the input and less than the alignment away |
| `Alignment.AlignRwIsLeast` | src/chip/noc.rs:70-72 | the larger of the two pointers is the least address aligned for reading and writing |
| `Dma.AlignedDmaBuffer.AllocDmaAligned` | src/chip/dma.rs:82-97 | the requested indices lie in the window, which starts at the least aligned address of the buffer |
| `Dma.AlignedDmaBuffer.Index` | src/chip/dma.rs:26-32 | index `i` is the byte a device sees at the window's physical address plus `i` |
| `Dma.AlignedDmaBuffer.IndexRange` | src/chip/dma.rs:12-18 | a range likewise, byte for byte |
| `Dma.AlignedDmaBuffer.SetIndex` | src/chip/dma.rs:34-38 | a write to index `i` changes that device byte and no other |
| `Dma.AlignedDmaBuffer.Fill` | src/chip/dma.rs:45-47 | fills the whole buffer, also before the window |

## Left out

- PCI, TLB and driver errors: device accesses always succeed, and a multicast writes every tile of its rectangle.
- Wall-clock timeouts and sleeps: polls end by a nondeterministic give-up step, and in the code by a patience count.
- `wait`, the start polls and the completion polls run without a bound in the source; here they have a patience count, and a call whose start polls run out ends there.
- The completion polls inside a load only read; the loader goes from the starts to the stops, and `Completion.TileMonitor.Wait` has the polls.
- Reads of the loader other than those of the start polls (read-backs, state printing, panic data, the early read of the sync word): they change nothing.
- The interrupt register inside the queue model is one bit: `ArcInterrupt.TriggerInt` has the register, and the read that `write_field_vec` repeats is one step with its write.
- MessageQueue.ArcQueue.SendMessage: models the area of one queue; that different queues do not interfere is `QueueLayout.QueuesApart`.
- Several threads on the Wormhole mailbox: the source takes no lock there, and the model has one sender.
- Words of queue entries are natural numbers, and sizes and addresses are unbounded below the limits that `QueueLayout.Layout.Valid` states.
- Dma.AlignedDmaBuffer.SetIndex: writing through a mutable range is modelled byte by byte only.
- `ptr` and `mut_ptr` of the DMA buffer, which point at its unaligned start.
- `quick_load`'s network choice: single-tile writes have the same effect on both networks in the model.
- `left_shift`: never called.
- The build tools, cargo invocation, ELF parsing and load options: not part of this model.
- Message numbers and their arguments as a table (`msg_code`, `args`, `from_values`), and the per-chip forwarding in `Chip`: case lists.
- `From<u32> for NocAddress`: it does not invert `Into<u32>`, and nothing here uses it.
- Blackhole telemetry and endpoints, `allocate_tlb`, `set_entry`, the `IDLE` flags and the PciNoc wrappers.
