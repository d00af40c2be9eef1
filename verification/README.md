# A verified model of the linuxmaxxing laboratories

This project models the state machines and algorithms at the heart of the laboratories and proves
what they keep in every run or on every input. It stands beside the repository and needs nothing
but Dafny 4.11: `dafny verify dfyconfig.toml` checks all of it.

| files | part of the system |
|---|---|
| `Bytes`, `Numbers`, `GuestLayout` | shared definitions: a byte, functions on numbers, and where the guest keeps its queue |
| `Virtqueue`, `Worker`, `WorkerRun` | the split virtqueue of the entropy device as an interleaving of driver, backend and worker thread |
| `Transport`, `GuestMemory`, `RngDevice` | the virtio-mmio register file and the byte-level queue backend, updated in place |
| `QeduProtocol`, `QeduStages`, `QeduEcho`, `QeduOutcomes`, `QeduRaces`, `QeduSuccess` | the DMA echo of the QEDU driver: writer, device, hard interrupt, ordered workqueue, abort |
| `JsonText`, `JsonWriter`, `JsonParser`, `JsonRecords`, `JsonHex` | the streaming JSON writer against a reference printer and an RFC 8259 parser |
| `RbTree`, `Snapshot`, `TreeSnapshot`, `RbWalk`, `FrameVerdict`, `RunqueueVerdict`, `TruncatedVerdict` | the bounded snapshot of a runqueue tree and the red-black check of the captured frame |
| `Paging`, `PageWalk`, `PageSummary`, `PageEntries` | the page-table sampler and the summary of its sample |
| `Ept` | the walk of KVM's extended page tables |
| `XArray`, `CacheCount` | the page-cache scan and its counters |
| `IoctlPairing`, `VfioOwnership`, `AddressMap` | call pairing in the observer, ownership hand-over of a network card, the address-map gap filler |

Protocols are step relations: a `Behaviour` is a sequence of states that starts initially and whose
neighbours are linked by one enabled step, and the theorems speak of every state of every behaviour.
Steps are single accesses to shared memory under sequential consistency. Code that updates an object
or a buffer in place is a class or a method over arrays, proved against functions and predicates of
the old and new contents.

## What the proofs found

- The echo of QEDU is right exactly when the write starts quiet. An idle device without a pending
  interrupt is not enough: a handler that read the stage before an abort can queue its advance after
  the cancellation, and the next write then succeeds over zeros (`QeduRaces.SecondWriteEchoesZeros`).
  A leftover finish is harmless.
- A write that ends without a result leaves nothing readable if and only if it got the lock or nothing
  was readable before it (`QeduOutcomes.WithoutResult`): one that is turned away before the lock (zero
  length, too long, interrupted) leaves the previous result (`QeduOutcomes.TooLongKeepsOldResult`).
- `structuralMinimum` never returns on a left spine that bites its tail. It cannot happen on an
  untruncated snapshot (`RunqueueVerdict.UntruncatedReturns`), and it does happen on the capture of a
  node that is its own left child (`TruncatedVerdict.CapturedLoopDiverges`).
- The check also runs on truncated frames, where it judges the tree cut off at 31 nodes and expects the
  cached leftmost where the captured left side ends (`TruncatedVerdict.VerdictOnAnyRunqueue`). A sound
  tree of seven full levels is refused (`TruncatedVerdict.SoundTreeRefused`).
- The frame shown for a large leaf is base plus offset, which is wrong exactly when the base field is
  misaligned; bit 12 of a large entry is the PAT bit and makes it so.
- A top-level EPT entry with bit 7 set is shown as a mapping of a page size that does not exist.
- If `nmcli connection down` takes effect and then reports failure, every restore returns and none brings
  the profile back; after any other failure, a restore whose commands all work puts everything back
  (`VfioOwnership.Session`).
- With sorted starts, the printed gaps of the address map overlap if and only if a region with a gap
  printed in front of it ends before it starts (`AddressMap.DisjointIffOpeningsUpright`); an inverted
  region inside what is already covered does no harm.
- The guest-RAM range check of `process_queue` can never fail: the exact descriptor match before it
  already implies it (`RngDevice.BufferInRam`).
- A JSON tree deeper than 32 levels sets the error flag and, inside an open container, leaves the depth
  lower than it was, because every close counts and not every open did; at the top level the depth is
  back at zero (`JsonRecords.Sinks`, part of what `JsonRecords.WriteValue` ensures).
- Call numbers in the ioctl stream are right exactly until a thread enters a call after one of its
  counter updates failed (`IoctlPairing.CallsAreNumbered`).

## Model

| member | source | states |
|---|---|---|
| `Virtqueue.UsedLogIsPublishedPrefix` | experiments/virt-virtio/rng_virtqueue.c:41-107 | in every interleaving of driver and backend steps, for unbounded counts behind the wrapping indices, the used log is the published heads in order, each once, each of length 32 |
| `Virtqueue.IndicesInLockStep` | experiments/virt-virtio/rng_virtqueue.c:98-105 | used.idx and last_avail_idx differ only between the two stores that advance them, by exactly one, and agree whenever the backend is parked |
| `Virtqueue.ExactlyOneOwner` | experiments/virt-virtio/rng_virtqueue.c:41-107 | every descriptor is held by exactly one of driver, available ring and used ring, and the heads in flight are pairwise different |
| `Virtqueue.NoProtocolError` | experiments/virt-virtio/rng_virtqueue.c:44-80 | with a driver that follows section 2.7 of Virtio 1.2 and publishes the one direct buffer this device expects for a head, the backend never meets an overfull ring or a bad descriptor; only entropy can fail |
| `Virtqueue.ReapReturnsNextHead` | experiments/virt-virtio/rng_virtqueue.c:98-105 | the used element the driver reads next names the oldest published head it has not taken back, although indices and slots wrap |
| `Virtqueue.FineMeansServed` | experiments/virt-virtio/rng_virtqueue.c:55-108 | a call that returns 0 has completed every request in its snapshot of avail.idx |
| `Virtqueue.BehaviourInv` | experiments/virt-virtio/rng_virtqueue.c:41-108 | counts modulo 2^16, conservation of heads, ring contents, log and batch knowledge hold together in every reachable state |
| `Virtqueue.StepKeeps` | experiments/virt-virtio/rng_virtqueue.c:41-108 | each single memory access of driver or backend keeps that invariant |
| `Virtqueue.WrapDistance` | experiments/virt-virtio/rng_virtqueue.c:44-44 | the 16-bit difference of two counters is their true distance while that fits in 16 bits |
| `Virtqueue.SlotsDiffer` | experiments/virt-virtio/rng_virtqueue.c:59-59 | two different indices less than a ring apart use different slots, also across the 16-bit wrap |
| `Transport.HandshakeAlways` | experiments/virt-virtio/vmm.c:77-229 | over every sequence of register accesses DRIVER_OK implies FEATURES_OK, which implies ACKNOWLEDGE, DRIVER and exactly VERSION_1; ready implies size 8 and the fixed ring addresses |
| `Transport.StatusOnlyGrows` | experiments/virt-virtio/vmm.c:163-214 | between two resets the status register only gains bits |
| `Transport.DoorbellStaysInGuestRam` | experiments/virt-virtio/vmm.c:132-154 | a notification reaches the backend only with three rings that lie, without overlap, in guest RAM |
| `Transport.InitSequenceOpensDoorbell` | experiments/virt-virtio/vmm.c:77-229 | from any register state the driver's initialisation sequence of section 3.1 is accepted write by write and ends with an open doorbell |
| `Transport.WriteKeepsHandshake` | experiments/virt-virtio/vmm.c:77-229 | each accepted register write keeps the handshake |
| `Transport.WriteIsLawful` | experiments/virt-virtio/vmm.c:77-229 | register by register: which values are taken, what a taken value does (an acknowledgement clears exactly the bits it names, address halves read back and keep the other half, status bits and the FEATURES_OK gate), and that every other register is kept |
| `Transport.DoorbellOpensWhen` | experiments/virt-virtio/vmm.c:148-154 | a notification is taken exactly for queue zero with all four status bits set and a live queue, and refused otherwise |
| `GuestMemory.FillEntropy` | experiments/virt-virtio/rng_virtqueue.c:81-96 | the retry loop ends if interruptions do, and the buffer then holds exactly the bytes the source delivered; nothing else changes |
| `GuestMemory.DeliverStep` | experiments/virt-virtio/rng_virtqueue.c:83-95 | one getrandom answer: what is delivered in total is its bytes followed by what later answers deliver |
| `RngDevice.Device.ProcessQueue` | experiments/virt-virtio/rng_virtqueue.c:30-108 | for any ring contents: answered requests are a prefix of the pending ones, each with a full delivery, its used element and its buffer; result is 0 exactly when all are served, the reason otherwise is a bad request or a dry source; nothing but the used ring and inspected buffers changes; used.idx - last_avail_idx is kept modulo 2^16 |
| `RngDevice.Device.Answer` | experiments/virt-virtio/rng_virtqueue.c:55-107 | one request is validated, filled and completed, or refused with the earlier answers intact |
| `RngDevice.BufferInRam` | experiments/virt-virtio/rng_virtqueue.c:74-78 | the range test that follows the descriptor match never refuses what the match let through |
| `RngDevice.Device.WriteRegister` | experiments/virt-virtio/vmm.c:77-229 | the in-place register file follows the register table and obeys each register's own law, the acknowledgement included; only an open doorbell runs the queue, and a notification writes the used ring and the buffers of published requests, nothing else |
| `RngDevice.Device.WriteLayout` | experiments/virt-virtio/vmm.c:97-131 | size and address registers are frozen while the queue is live and change one 32-bit half at a time |
| `RngDevice.Device.WriteStatus` | experiments/virt-virtio/vmm.c:163-214 | a nonzero status write: unsupported or dropped bits are refused, FEATURES_OK sticks only for exactly VERSION_1, DRIVER_OK needs the fixed ready queue |
| `RngDevice.Device.Reset` | experiments/virt-virtio/vmm.c:163-171 | a zero status write zeroes every register, last_avail_idx included |
| `RngDevice.Device.DoMmio` | experiments/virt-virtio/vmm.c:231-254 | an access outside the window, unaligned or not four bytes wide is refused without effect; any other is the register access, with the same laws and the same bound on what a notification writes |
| `RngDevice.Device.ReadsShowState` | experiments/virt-virtio/vmm.c:23-76 | identification spells virt, version 2, entropy device and the vendor; status, interrupt status, queue size and readiness read as they are, and as zero for a queue that is not there |
| `RngDevice.Device.OffersOneFeature` | experiments/virt-virtio/vmm.c:39-42 | over all feature words exactly feature 32, VERSION_1, is offered |
| `RngDevice.Device.Notify` | experiments/virt-virtio/vmm.c:148-154 | a notification writes the used ring and the buffers of published requests only, and success means last_avail_idx reached avail.idx |
| `RngDevice.ServeOneMore` | experiments/virt-virtio/rng_virtqueue.c:98-105 | completing one more request leaves all earlier used elements and buffers as they were |
| `RngDevice.FailedServes` | experiments/virt-virtio/rng_virtqueue.c:81-96 | a fill that gives up half way spoils no earlier answer but one in the same buffer |
| `RngDevice.InLockStep` | experiments/virt-virtio/rng_virtqueue.c:98-105 | however far a call gets, both indices have moved by the same number of requests modulo 2^16 |
| `RngDevice.SameRequests` | experiments/virt-virtio/rng_virtqueue.c:58-68 | what a call writes never changes the available ring or the descriptors it is still to read |
| `Worker.WakeIsNeverCounted` | experiments/virt-virtio/rng_virtqueue.c:159-186 | every kick the guest made is counted, pending, in hand or read after stop, so the shutdown wake is never in guest_kicks |
| `Worker.CallsMatchKicks` | experiments/virt-virtio/rng_virtqueue.c:112-133 | between iterations with result 0 guest_calls equals guest_kicks |
| `Worker.InterruptFollowsCompletion` | experiments/virt-virtio/rng_virtqueue.c:135-157 | when InterruptStatus is raised every head published before that kick has its used element published, and last_avail_idx and used.idx both stand at the total |
| `Worker.CompletionDecides` | experiments/virt-virtio/rng_virtqueue.c:145-156 | in every run, when the queue call has returned the thread goes on to raise the interrupt if and only if the completed requests, counted in 16 bits, are all of them; otherwise it exits with an error |
| `WorkerRun.SixRequestsRaiseInterrupt` | experiments/virt-virtio/rng_virtqueue.c:135-186 | from an untouched queue with any descriptors there is a run of six publishes and one kick in which all six are served, InterruptStatus is set, guest_calls and guest_kicks are 1 and result is 0 |
| `WorkerRun.ServeAll` | experiments/virt-virtio/rng_virtqueue.c:55-108 | a batch of any size can be served to its end, request by request |
| `Worker.OnlyVerifiedRaises` | experiments/virt-virtio/rng_virtqueue.c:147-156 | InterruptStatus is raised by that step alone, and only after the completion check |
| `Worker.FailureMeansEntropyOrIo` | experiments/virt-virtio/rng_virtqueue.c:145-147 | in every run, a kick in service fails inside the queue call for lack of entropy only |
| `QeduStages.SubmitFindsIdle` | experiments/io/qedu_dma.c:192-197 | in every interleaving whatsoever a submission finds the stage Idle |
| `QeduStages.JobsAreLawful` | experiments/io/qedu_dma.c:48-242 | each job's stage changes are SUBMIT [ADVANCE [FINISH]] [ABORT] |
| `QeduStages.CompletionIsOwn` | experiments/io/qedu_dma.c:92-104 | the completion bit a waiter sees was set by the FINISH of its own job, and is clear at submission |
| `QeduStages.NothingOutlivesItsJob` | experiments/io/qedu_dma.c:217-238 | once a write has returned the stage is Idle and no work item is half done |
| `QeduStages.BehaviourInv` | experiments/io/qedu_dma.c:48-242 | the stage, log, worker and queue invariant behind these holds in every reachable state |
| `QeduEcho.EchoIsFaithful` | experiments/io/qedu_chrdev.c:121-167 | when every write that gets the lock starts quiet: one about to succeed finds its own bytes in the buffer, one that failed with the lock held leaves nothing readable, and reads return exactly slices of the last result |
| `QeduOutcomes.WithoutResult` | experiments/io/qedu_chrdev.c:91-167 | exact condition, in every interleaving: a write that ends without a result leaves nothing readable if and only if it got the lock or nothing was readable before it; a computed result is readable in full |
| `QeduOutcomes.EchoesAreFaithful` | experiments/io/qedu_chrdev.c:145-167 | when every write that gets the lock starts quiet, each echo reported made exactly its own bytes readable |
| `QeduOutcomes.TooLongKeepsOldResult` | experiments/io/qedu_chrdev.c:103-119 | a write of 4096 bytes or more after a successful one is turned away and the old result still reads back |
| `QeduEcho.StepEcho` | experiments/io/qedu_dma.c:48-139 | each step of writer, device, handler, worker or abort keeps the data invariant of a job that started quiet |
| `QeduEcho.ReadsSlice` | experiments/io/qedu_chrdev.c:46-71 | a read is the requested slice of the published bytes, cut at the result size |
| `QeduEcho.Slice` | experiments/io/qedu_chrdev.c:46-71 | a slice has the bytes from the offset on, as many as asked for and there |
| `QeduRaces.EchoCorrectIffQuiet` | experiments/io/qedu_dma.c:48-242 | exact condition: for bytes that are not all zero, every successful outcome echoes them if and only if no leftover transfer, interrupt, held stage or advance work existed at the start |
| `QeduRaces.LeftoverCorrupts` | experiments/io/qedu_dma.c:192-242 | from any start that is not quiet there is a run in which the write succeeds over a buffer of zeros |
| `QeduRaces.QuietIsSafe` | experiments/io/qedu_dma.c:48-242 | from a quiet start every run that succeeds returns the bytes |
| `QeduSuccess.QuietSucceeds` | experiments/io/qedu_dma.c:185-242 | from every quiet start, leftover finishes included, some run of the write succeeds with its bytes in the buffer |
| `QeduSuccess.CancelRemoves` | experiments/io/qedu_dma.c:217-238 | cancelling a work item removes it from the queue and no other |
| `QeduRaces.IdleDeviceIsNotEnough` | experiments/io/qedu_dma.c:109-139 | an aborted write can leave an idle device, no pending interrupt and a handler at rest, and still no quiet start |
| `QeduRaces.SecondWriteEchoesZeros` | experiments/io/qedu_dma.c:48-242 | from power-on: a first write is aborted, the device goes idle, and a run of the second write then reports success over zeros |
| `JsonWriter.Writer.Putc` | common/json_writer.c:6-12 | one byte is appended if it fits and nothing failed before; otherwise the error flag stays or goes up |
| `JsonWriter.Writer.Puts` | common/json_writer.c:14-20 | text is appended as far as it fits; once the flag is up the output never grows again |
| `JsonWriter.Writer.Comma` | common/json_writer.c:23-31 | a comma is written exactly when the current container already has an item; outer containers are untouched |
| `JsonWriter.Writer.PutByte` | common/json_writer.c:40-55 | one byte of a string is written as the reference escape of that byte |
| `JsonWriter.Writer.PutEscaped` | common/json_writer.c:33-58 | the quoted reference escape of the bytes before the terminator or the limit |
| `JsonWriter.Writer.Name` | common/json_writer.c:61-65 | a member name in quotes and a colon |
| `JsonWriter.Writer.Push` | common/json_writer.c:84-87 | one more level, marked empty, or the error flag at depth 32 |
| `JsonWriter.Writer.ObjectBegin` | common/json_writer.c:80-88 | separator and brace, then a new empty level, or the error flag at the limit |
| `JsonWriter.Writer.ObjectBeginField` | common/json_writer.c:90-99 | the same under a name |
| `JsonWriter.Writer.ObjectEnd` | common/json_writer.c:101-106 | the closing brace; the depth never goes below zero |
| `JsonWriter.Writer.ArrayBegin` | common/json_writer.c:108-116 | separator and bracket, then a new empty level, or the error flag at the limit |
| `JsonWriter.Writer.ArrayBeginField` | common/json_writer.c:118-127 | the same under a name |
| `JsonWriter.Writer.ArrayEnd` | common/json_writer.c:129-134 | the closing bracket; the depth never goes below zero |
| `JsonWriter.Writer.StringField` | common/json_writer.c:136-148 | separator, name and escaped string, bounded or not |
| `JsonWriter.Writer.StringValue` | common/json_writer.c:248-258 | the same in value position |
| `JsonWriter.Writer.NumberField` | common/json_writer.c:150-178 | an integer member prints as the reference text of that number, for every value of the three widths |
| `JsonWriter.Writer.BoolField` | common/json_writer.c:180-185 | a boolean member prints as its reference text |
| `JsonWriter.Writer.NullField` | common/json_writer.c:187-192 | a null member prints as its reference text |
| `JsonWriter.Writer.NumberValue` | common/json_writer.c:221-246 | the same for a number in value position |
| `JsonWriter.Writer.BoolValue` | common/json_writer.c:260-264 | the same for a boolean in value position |
| `JsonWriter.Writer.NullValue` | common/json_writer.c:266-270 | the same for null in value position |
| `JsonWriter.Writer.PtrField` | common/json_writer.c:204-219 | a pointer member prints as the reference text of a 16-digit hexadecimal string, or of null for zero |
| `JsonWriter.HexText` | common/json_writer.c:194-219 | the preformatted hexadecimal text is the reference text of that string: its characters need no escape |
| `JsonWriter.Writer.HexField` | common/json_writer.c:194-202 | a hexadecimal member prints as the reference text of a string without leading zeros |
| `JsonHex.HexReadsBack` | common/json_writer.c:194-219 | hexadecimal text, read most significant digit first, is its number, and has at least the width asked for |
| `JsonHex.HexLeads` | common/json_writer.c:194-202 | without a width the first digit is zero only for zero |
| `JsonHex.AddressText` | common/json_writer.c:204-219 | a nonzero 64-bit address is shown as 0x and exactly sixteen digits that read back as the address |
| `JsonHex.EscapedOnlyWhenNeeded` | common/json_writer.c:40-55 | a byte is escaped exactly when it is a quote, a backslash or a control byte, a control byte as four lower-case hexadecimal digits that read back as it |
| `JsonHex.VisibleIsLongestStart` | common/json_writer.c:33-38 | what is written of a C string is its longest start without a terminator, within the limit |
| `JsonHex.PrintCompact` | common/json_writer.c:23-31 | the writer adds no spaces: each space of a text comes from a name or a string |
| `JsonWriter.Writer.Newline` | common/json_writer.c:272-275 | the record separator |
| `JsonRecords.WriteValue` | common/json_writer.c:80-270 | driving the writer over any value tree: within 32 levels exactly the reference text is added and depth and outer flags are restored; deeper trees raise the error flag and leave the depth lower, though never below zero; a writer in error writes nothing |
| `JsonRecords.WriteField` | common/json_writer.c:90-220 | the same for a named member |
| `JsonRecords.WriteItems` | common/json_writer.c:108-134 | a whole array body is the comma-joined texts of its items |
| `JsonRecords.WriteFields` | common/json_writer.c:80-106 | a whole object body is the comma-joined texts of its members |
| `JsonRecords.WriteRecord` | common/json_writer.c:272-275 | a top-level value and its line feed, leaving the writer at depth zero |
| `JsonRecords.Capture` | common/json_writer.c:67-78 | a capture is reported good if and only if every record is at most 32 deep and everything fits, and is then exactly the reference text; a full stream leaves exactly a prefix, and in every case what came out is the start of the reference text |
| `JsonRecords.PrefixRoundTrip` | common/json_writer.h:6-6 | a stream that was cut off: its complete lines parse to the first records, and what follows the last line feed starts the next record's text |
| `JsonRecords.CaptureRoundTrip` | common/json_writer.h:6-6 | splitting a capture on line feeds and parsing the lines gives back exactly the records |
| `JsonRecords.SplitLines` | common/json_writer.c:46-51 | line feeds appear only between records, whatever names and strings hold |
| `JsonRecords.Container` | common/json_writer.c:80-134 | opening, filling and closing a container is adding one item to the container around it |
| `JsonText.PrintPrintable` | common/json_writer.c:46-51 | no text of a value holds a control byte |
| `JsonParser.PrintParse` | common/json_writer.c:33-270 | the RFC 8259 parser recovers every value from its reference text, whatever follows it |
| `JsonParser.RoundTrip` | common/json_writer.c:33-270 | the whole text of a value parses to that value |
| `JsonParser.PrintInjective` | common/json_writer.c:33-270 | no two values have the same text |
| `JsonParser.StringRoundTrip` | common/json_writer.c:33-58 | every byte string survives escaping and parsing |
| `JsonParser.DigitsRoundTrip` | common/json_writer.c:150-177 | decimal text is read back as its number |
| `Snapshot.Scratch.EmitSnapshot` | experiments/scheduler/cfs.bpf.c:186-219 | whatever memory and the reused workspace hold, the snapshot is a breadth-first visit bounded by 31, truncated exactly when more was discovered; a null root gives no nodes and truncated |
| `Snapshot.Scratch.WalkOneNode` | experiments/scheduler/cfs.bpf.c:152-184 | one loop step visits the next discovered node and queues its children, or stops with the worklist used up |
| `Snapshot.Scratch.Enqueue` | experiments/scheduler/cfs.bpf.c:167-182 | a child is queued while there is room and otherwise marks the snapshot truncated |
| `TreeSnapshot.SnapshotIsLevelOrder` | experiments/scheduler/cfs.bpf.c:152-216 | for every non-empty tree the nodes reported are exactly the first min(n, 31) in level order, links and colours included; truncated if and only if n > 31 |
| `TreeSnapshot.UntruncatedIsClosed` | experiments/scheduler/cfs.bpf.c:207-216 | an untruncated snapshot of any memory contains every child of every node it contains |
| `TreeSnapshot.SnapshotOfVisit` | experiments/scheduler/cfs.bpf.c:152-216 | any visit that exhausts what it discovers has the snapshot as its first 31 nodes |
| `RbTree.LevelOrderFeeds` | experiments/scheduler/cfs.bpf.c:166-182 | level order is the root followed by everybody's children in order |
| `RbTree.LevelOrderContents` | experiments/scheduler/cfs.bpf.c:212-214 | level order lists every subtree exactly as often as it occurs |
| `RbWalk.WalkTree` | app/views/scheduler/scheduler.js:409-423 | on a tree the walk marks exactly its nodes and judges exactly its colours and black heights |
| `RbWalk.WalkFinds` | app/views/scheduler/scheduler.js:409-423 | a walk that raises no cycle alarm has found a tree disjoint from what was seen before |
| `RbWalk.Walk` | app/views/scheduler/scheduler.js:409-423 | the walk ends on every graph, cyclic ones included; marks are never taken back |
| `RbWalk.EvenIsBlackHeight` | app/views/scheduler/scheduler.js:419-422 | the returned heights agree at every node exactly when all paths have the same number of black nodes |
| `RbWalk.RedBlackIsShallow` | app/views/scheduler/scheduler.js:425-437 | black height h implies at least 2^h - 1 nodes and at most 2h levels |
| `FrameVerdict.Walker.WalkFrom` | app/views/scheduler/scheduler.js:409-423 | the recursion over the mutable marks computes the walk |
| `FrameVerdict.StructuralMinimum` | app/views/scheduler/scheduler.js:395-399 | the loop returns the first node on the left spine without a captured left child, whenever there is one |
| `FrameVerdict.SpineEndsSoon` | app/views/scheduler/scheduler.js:395-399 | the loop stops if and only if it stops within as many steps as there are nodes |
| `FrameVerdict.SelfLoopDiverges` | app/views/scheduler/scheduler.js:395-399 | a node that is its own left child makes the loop run for ever |
| `FrameVerdict.MinimumIsFirst` | app/views/scheduler/scheduler.js:395-399 | with every child captured, the minimum of a tree is its first node in order |
| `FrameVerdict.VerifyFrame` | app/views/scheduler/scheduler.js:401-438 | it throws exactly when a non-null root was not captured; ok if and only if what is reachable is a red-black tree and a non-null leftmost is the structural minimum; rootBlack, red, bh and height mean what they say; ok implies at least 2^height - 1 nodes in the frame and at most 2 * height levels |
| `FrameVerdict.WalkVerdict` | app/views/scheduler/scheduler.js:409-437 | from clean marks: no cycle alarm exactly when what is reachable is a tree, and then redOK, bhOK and the height are its own |
| `RunqueueVerdict.UntruncatedReturns` | app/views/scheduler/scheduler.js:395-438 | the check always returns a report on an untruncated snapshot, whatever memory holds: cycles would have truncated it |
| `RunqueueVerdict.VerdictOnRunqueue` | experiments/scheduler/cfs.bpf.c:152-216 | end to end: a runqueue tree of at most 31 nodes is accepted exactly when it is a red-black tree in memory whose first node is the cached leftmost (or none is cached) |
| `TruncatedVerdict.VerdictOnAnyRunqueue` | app/views/scheduler/scheduler.js:401-438 | for a tree of any size, the check on its snapshot returns, and accepts exactly when the tree cut off at the captured nodes is red-black and the cached leftmost is where the captured left side ends |
| `TruncatedVerdict.SoundTreeRefused` | app/views/scheduler/scheduler.js:427-437 | a red-black tree of seven full levels with the right cached leftmost is refused |
| `TruncatedVerdict.CapturedLoopDiverges` | app/views/scheduler/scheduler.js:395-399 | the capture of a node that is its own left child is 31 copies of it, marked truncated, and the check on it never returns |
| `RunqueueVerdict.FrameOfTree` | app/views/scheduler/scheduler.js:106-118 | the frame built from an untruncated snapshot unfolds to the tree in memory |
| `Paging.LeafFrameIsTrueIffAligned` | experiments/memory/mm_page_walk.bpf.h:70-74 | base plus offset is the frame the processor uses exactly when the leaf's base is aligned to its size |
| `Paging.PatBitMisplaces` | experiments/memory/mm_page_walk.bpf.h:82-86 | the PAT bit of a large entry is taken for an address bit and moves the frame by one |
| `Paging.RegionIsShift` | experiments/memory/mm_page_walk.bpf.h:59-69 | dropping nine bits per level is division by the level's span |
| `PageWalk.Vma.WalkPage` | experiments/memory/mm_page_walk.bpf.h:42-106 | the unrolled walk records the state, dirty bit and target of the recursive translation, and touches no other page |
| `PageWalk.Vma.SetPage` | experiments/memory/mm_page_walk.bpf.h:30-40 | the three arrays change at one index, a dirty bit is only ever set |
| `PageWalk.Vma.Sample` | experiments/memory/mm.bpf.c:280-298 | every whole page among the first 512 of the area is scanned and no other, below 2^44 bytes; a larger area is scanned as what is left after dropping that many bytes; each scanned page is recorded over whatever the record held before |
| `PageWalk.ScansFirstPages` | experiments/memory/mm.bpf.c:286-292 | the 32-bit page count, cut at 512, is exactly the first whole pages of the area, wrap-around included |
| `PageWalk.TargetIsTrue` | experiments/memory/mm_page_walk.bpf.h:70-95 | a recorded target is the frame the processor uses exactly for an aligned leaf, and always for a base page |
| `PageWalk.EntryFields` | experiments/memory/mm.bpf.c:17-21 | where an entry keeps presence, dirtiness, page size and frame |
| `PageSummary.Summarise` | experiments/memory/observer.c:248-299 | each count is the number of slots it is about, and present, none and swap add up to the pages scanned |
| `PageEntries.SummaryOfSample` | experiments/memory/observer.c:258-299 | huge_pmd_entries and huge_pud_entries are the numbers of distinct large leaf entries touched, and dirty_entries the number of distinct dirty leaf entries |
| `PageEntries.SampleAndSummarise` | experiments/memory/observer.c:248-299 | end to end, from page-table memory to the counts: the pages counted are exactly the whole pages scanned, each page count is the number of pages the translation leaves in that state, and each entry count is a number of distinct entries |
| `PageEntries.SeenIffContinued` | experiments/memory/mm_page_walk.bpf.h:59-95 | a page shares its leaf entry with an earlier one exactly when it continues a large leaf, although indices repeat every 512 entries |
| `PageEntries.SameLeaf` | experiments/memory/mm_page_walk.bpf.h:59-90 | addresses under one entry of a level share it as their leaf |
| `PageEntries.LeafTellsIndex` | experiments/memory/mm_page_walk.bpf.h:24-28 | through a page-aligned direct map an entry's address tells the index it was reached by |
| `PageEntries.FirstIsNew` | experiments/memory/observer.c:276-291 | the first-slot test is true exactly for pages whose entry was not seen before |
| `Ept.GfnRecord.WalkGfn` | experiments/virt-ept/ept.bpf.c:352-426 | the unrolled loop agrees with a recursive translation for every memory, root and frame: flags, leaf level, frame and all four entry records, whose flags are their entries' bits and which, down to the end of the walk, were read from the table the entry above points at |
| `Ept.OneEnding` | experiments/virt-ept/ept.bpf.c:381-424 | mapped and MMIO exclude each other, mapped exactly when some entry is a leaf, at most one entry ends the walk, and all later ones are empty |
| `Ept.ShownFrameIsReal` | experiments/virt-ept/ept.bpf.c:328-340 | leaf_pfn is the frame the processor reaches exactly for leaves at levels 1 to 3 with an aligned base |
| `Ept.TopLevelLeafIsNotReal` | experiments/virt-ept/ept.bpf.c:411-420 | bit 7 at level 4 is shown as a mapping although no such page size exists |
| `Ept.DescribeFits` | experiments/virt-ept/ept.bpf.c:372-409 | the record of a level matches the step the translation takes there |
| `Ept.EntryFields` | experiments/virt-ept/ept.bpf.c:46-55 | where an entry keeps permissions, page size, frame and the bit that tells the MMIO marker apart |
| `XArray.TakenAtHome` | experiments/memory/mm_xarray_walk.bpf.h:89-158 | the scan takes an index's entry exactly at the slot where it is stored, not at siblings |
| `XArray.StoredIsTaken` | experiments/memory/mm_xarray_walk.bpf.h:89-158 | every folio an index resolves to is taken at its home slot |
| `XArray.DeepFolioTakenOften` | experiments/memory/mm_xarray_walk.bpf.h:133-149 | above shift 6 a folio in the first slot is taken at every slot, so the count-once claim ends there |
| `CacheCount.EachFolioOnce` | experiments/memory/mm_xarray_walk.bpf.h:89-158 | for a single entry or a root of shift 0 or 6 the 4096-slot scan visits every stored folio exactly once |
| `CacheCount.CacheRecord.Count` | experiments/memory/mm_xarray_walk.bpf.h:41-86 | one folio updates every counter so that each stays the number of folios with its property |
| `CacheCount.ScanCache` | experiments/memory/mm_xarray_walk.bpf.h:89-165 | after the scan of any array every counter is the number of visited folios with its property |
| `CacheCount.CountPageCache` | experiments/memory/mm_xarray_walk.bpf.h:41-165 | end to end: each total is the number of stored folios it is about, the order buckets add up to the folios, and clean is all but those dirty or under writeback |
| `CacheCount.Bucket` | experiments/memory/mm_xarray_walk.bpf.h:53-56 | a small folio falls in bucket 0, a large one in the bucket of its order, and orders from 9 on share the last |
| `CacheCount.CountsAddUp` | experiments/memory/mm_xarray_walk.bpf.h:52-78 | the order buckets sum to the folios, and clean is all folios but those dirty or under writeback |
| `IoctlPairing.ExitsRepeatTheirCall` | experiments/virt-ept/ept.bpf.c:468-527 | while nothing was dropped every exit shown carries the fd, request, argument and id of its thread's last enter, failed map updates included |
| `IoctlPairing.CallsAreNumbered` | experiments/virt-ept/ept.bpf.c:468-500 | with no drop, each thread's calls are numbered 1, 2, 3 and so on if and only if no thread entered a call after one of its counter updates failed; so they are when no update failed |
| `IoctlPairing.FailureRepeatsNumber` | common/observer_bpf.h:17-23 | a run with one failed counter update shows two calls under one number |
| `IoctlPairing.StepKeeps` | experiments/virt-ept/ept.bpf.c:468-527 | each enter or exit of any thread, with any of the observer's operations failing, keeps the pairing invariant |
| `IoctlPairing.EventsTellTheStep` | experiments/virt-ept/ept.bpf.c:468-527 | a shown enter carries the thread's own fd, request and argument, a shown exit its result and the remembered call, and nothing else is shown |
| `VfioOwnership.Session` | experiments/virt-vtd/_run.py:80-145 | for every failure point of the hand-over and every sequence of restores: a restore whose commands work always returns; once one returned, driver and override are as found, the reclaim recorded once if VFIO had the card and never otherwise, and the profile is up exactly unless the command that took it down reported failure, in which case it stays down and every restore returns |
| `VfioOwnership.DeviceOwnership.BindVfio` | experiments/virt-vtd/_run.py:80-101 | after any failure what the controller remembers is enough to undo what was done, except for a profile lost in a failing command; addresses or routes left over stop it before the driver is touched |
| `VfioOwnership.DeviceOwnership.Restore` | experiments/virt-vtd/_run.py:103-145 | keeps that, returns whenever its commands work, clears every flag when it returns, and changes nothing when repeated |
| `VfioOwnership.DeviceOwnership.RestoreDriver` | experiments/virt-vtd/_run.py:106-123 | override and driver are put back before the flag is cleared and the reclaim recorded |
| `AddressMap.PrintLayout` | experiments/kapi/kapi.c:136-155 | the loop prints the regions in order and the gaps of the specification |
| `AddressMap.NothingLeftOut` | experiments/kapi/kapi.c:136-155 | for any region list, regions and gaps cover every address below ULONG_MAX |
| `AddressMap.GapsAreComplement` | experiments/kapi/kapi.c:136-155 | with sorted starts the gaps are exactly the addresses outside every region |
| `AddressMap.GapsAreDisjoint` | experiments/kapi/kapi.c:136-155 | if moreover no region is inverted, the gaps come in order and do not overlap |
| `AddressMap.DisjointIffOpeningsUpright` | experiments/kapi/kapi.c:136-155 | exact condition, with sorted starts: the gaps do not overlap if and only if no region with a gap printed in front of it is inverted |
| `AddressMap.InvertedRegionOverlaps` | experiments/kapi/kapi.c:136-155 | a list with an inverted region behind a gap whose gaps overlap |
| `AddressMap.InvertedRegionInside` | experiments/kapi/kapi.c:136-155 | a list with an inverted region inside what is covered whose gaps do not |

## Left out

- KVM ioctls, mmap, eventfd and ring-buffer mechanics: only their results appear (a count added, bytes filled, a failure).
- The backend reads a descriptor in one step: the driver does not own it then.
- C11 fences and weak memory: sequential consistency is assumed.
- The guest program: a driver is any sequence of publish and reap steps that section 2.7 of Virtio 1.2 allows, and re-zeroes its rings after a reset.
- Virtqueue.NoProtocolError: the driver publishes exactly the descriptor the backend accepts for a head, which section 2.7 does not ask; other descriptors are met by RngDevice.Device.ProcessQueue, for any ring contents.
- The bytes getrandom returns and how long it is interrupted: parameters; termination assumes interruptions do not go on for ever.
- The text parsing that selects the factorial engine, and that engine: nondeterministic in the QEDU protocol. Faults of copy_to_user are not modelled, a DMA transfer copies in one step, and the four register writes that program one are one step, so two contexts that program the engine at the same time do not mix registers.
- JSON numbers with a fraction or exponent, and \u escapes of more than one byte, are refused by the reference parser: the writer emits neither.
- JsonWriter.Writer.NumberField: a number is a mathematical integer of at most 64 bits; the three widths of the source print alike.
- JsonRecords.WriteValue: the driver over a tree is the model's own, since the repository's callers are straight-line code; it uses each writer operation the way those callers do.
- Node names, process identifiers and task names in the runqueue snapshot: copied fields without logic.
- PageWalk.Vma.SetPage: the dirty bitmap is 512 flags instead of eight words, and targets are full frame numbers; their folding to 16 bits loses information by design.
- PageEntries.SummaryOfSample: assumes that areas start on a page boundary and that the direct map is page-aligned, as the kernel guarantees; sizes need no bound, since a page count that wraps in 32 bits only shortens the scan.
- Page tables that change during a walk: memory is fixed while a sample is taken.
- XArrays with a root shift above 6: the point lookup is modelled and counted, but one folio is reached from several slots there, so nothing is claimed about counting once.
- CacheCount.EachFolioOnce: assumes the kernel's own invariants of an XArray (siblings name an entry of their own, a folio is stored at one place).
- IoctlPairing.ExitsRepeatTheirCall: one probe run is one step; threads never share a key, so finer interleavings differ only in the order of different threads' events. A thread that dies inside a call is not modelled.
- VfioOwnership.Session: reading the driver link and appending the record do not fail; a write to driver_override that returns has taken effect.
- The madvise, mmap, memslot and control pairings: the same pattern as ioctl.
- The VIRT-IO toy device, the factorial path, sysfs and debugfs files, probe and remove: simple or finite behaviour.
- Provisioning, SSH, QEMU launch, tracefs decoding, and all rendering: input, output and user interface.
