# Nexus IPC: verified model

Nexus moves messages between processes through shared memory. Its core is a handful of small state
machines that have to behave like simple objects (a queue, a finite map, a set of recipients, an
inverse function) while several threads or processes work on them at once. This project models those
machines in Dafny and proves, for every schedule and every input, how far they do.

| files | part of the system |
|---|---|
| `RingLayout`, `RingMachine`, `RingProofs`, `RingTheorems`, `RingEnd`, `RingReachability`, `LockFreeRingBuffer` | the single-producer, single-consumer byte ring |
| `Crc32Table`, `Crc32Register`, `Crc32` | the block checksum |
| `LargeBlock`, `LargeChannel`, `LargeRuns`, `LargeProofs`, `LargeWrap`, `LargeLimits`, `LargeDamage`, `LargeReaderCount`, `LargeDataChannel` | the large-data channel with one writer and many readers |
| `Pending`, `QueueSlots` | message counting and slot claiming between sender and receiver |
| `NodeRegistry`, `RegistryCrash` | the shared table of nodes, and the same table when lock holders die |
| `MessageQueues` | the per-thread message queues and their overflow policies |
| `ServiceRegistry`, `ServiceKeys`, `Routing` | the service map, and who receives a publish |
| `Packet`, `PacketDamage`, `ServiceCodec`, `SystemQueue`, `ServiceExchange` | the wire formats of messages and service announcements, the queue in which they wait, and the answer to a query |
| `Bytes`, `BitVectors`, `Subsequence`, `Modular`, `Options` | byte strings, C text fields, filters, 32-bit counters |

Concurrent parts are state machines: a run is a fold of an arbitrary schedule over total step
functions, and the theorems speak of every schedule. Code that works in place is a class or a method
over arrays, proved equal to a specification function about which the theorems are proved. Atomics are
sequentially consistent. Liveness of processes, clocks, `std::hash` and `std::stoi` are parameters.

## What the proofs found

- **Byte ring.** FIFO holds under every byte-level interleaving with stale snapshots, whatever other
  code does to the memory behind the buffer, as long as no wrap is taken with the head exactly on the
  end of the buffer. Such a wrap writes no padding header; the tail later stands on the end with
  messages unread, and `tryRead` goes on correctly exactly when the eight bytes it copies from behind
  the buffer carry the padding magic (`RingEnd.ReadAtEnd`). The state is reachable for every buffer of
  at least two times 2048 bytes. Behind both rings of the transport lie a counter and four bytes of
  structure padding, so in a zero-filled segment no further message is ever delivered from there
  (`RingReachability.TransportCanStop`).
- **Overflow.** The comment at `include/nexus/transport/LockFreeQueue.h:22` promises to drop the oldest
  message; the code refuses the new one. The large-data channel's DROP_OLDEST refuses as well. The model
  follows the code.
- **Large-data channel.** Readers are served under four rules (`LargeRuns.Polite`), and for each rule
  a run that breaks it is given (`LargeLimits`). Registration after the first lap stalls the writer. A
  wrap between `tryRead` and `releaseBlock` moves the cursor to the new block; the release is ignored
  exactly when the new block overwrote the magic of the held one, and otherwise puts the cursor past
  the new block, off a block boundary unless the two blocks have equal size. A reader whose block limit
  is too small for the next block moves off every boundary. A release without a block of one's own
  moves past a block never delivered, if the header its handle points at still carries the magic: with
  a double release, and when a reader that fell silent for a minute has lost its slot to another one (a
  slot, not a process, is the reader's identity). The catch-up of `tryRead` never fires, and `canWrite`
  forgets the 128 header bytes.
- **Node registry.** An id with a NUL is stored up to the NUL and never found under its own name. A
  well-formed call with such an id leaves a table that stands for no map exactly when that part is
  registered already and a slot is free.
- **Registry crashes.** A registrant that dies between its claim and its heartbeat leaves a valid slot
  that no cleanup frees and no registration reuses until a call finds its id there.
- **Slot claims.** A lookup returns a slot the caller already had exactly when one of them lies below
  the `num_queues` it loaded, which holds whenever no claim is in progress; otherwise it can claim a
  second slot.
- **Node left.** The one-by-one removal equals `unregisterNode` exactly when every service of the node
  shares its topic with one that names the group it is stored under.
- **Service keys.** A capability joins names with slashes, so within a group a normal service on topic
  `c/t` and a large-data service on channel `c` and topic `t` are taken for one. Without slashes the
  key is node, topic and, for large data, channel.
- **Packets and announcements.** Lengths are cut to their fields without a check. Both codecs are
  inverse exactly within the limits stated below.

## Model

| member | source | states |
|---|---|---|
| RingTheorems.FifoUnlessWrapAtEnd | include/nexus/transport/LockFreeQueue.h:56-175 | for every schedule of byte-level steps, with arbitrary stores behind the buffer, in which no wrap is taken with the head on the end: delivered messages are a prefix of accepted ones, indices stay in the buffer and agree iff nothing is unread, counters are exact, no read is refused as corrupt, and the next store of the producer never hits an unread byte |
| RingTheorems.FifoWhileInside | include/nexus/transport/LockFreeQueue.h:123-175 | the same for every schedule, whatever wraps it takes, as long as no header copied from behind the buffer is interpreted |
| RingTheorems.RunKeepsInv | include/nexus/transport/LockFreeQueue.h:56-175 | every such run keeps the layout invariant that ties memory, indices and both program counters to the queue |
| RingEnd.ReadAtEnd | include/nexus/transport/LockFreeQueue.h:132-162 | with the tail on the end and messages unread, the invariant, and with it FIFO, goes on iff the header copied from behind the buffer carries the padding magic; an acceptable header makes the read take a frame from outside, any other breaks FIFO at once |
| RingEnd.DeliveryStops | include/nexus/transport/LockFreeQueue.h:132-162 | with the tail on the end and messages unread, as long as the bytes behind the buffer stay unusable while they change, no schedule ever delivers another message |
| RingEnd.ForeignFrame | include/nexus/transport/LockFreeQueue.h:153-171 | with an acceptable header behind the buffer, every schedule, whatever happens behind the buffer, delivers nothing more or breaks FIFO when the foreign bytes are delivered |
| RingTheorems.StepKeepsPadInside | include/nexus/transport/LockFreeQueue.h:74-93 | as long as wraps are taken before the end, the place where the reader turns back stays inside the buffer |
| RingProofs.StoresAreSafe | include/nexus/transport/LockFreeQueue.h:84-112 | no store of a write in progress touches a byte of an unread frame or of the padding that leads to one |
| RingProofs.ProducerKeepsInv | include/nexus/transport/LockFreeQueue.h:56-115 | every producer step, with a stale tail, keeps the invariant |
| RingProofs.ConsumerKeepsInv | include/nexus/transport/LockFreeQueue.h:123-175 | every consumer step, with a stale head, keeps the invariant unless it interprets a header from behind the buffer |
| RingProofs.NeighbourKeepsInv | include/nexus/transport/SharedMemoryTransportV3.h:212-221 | what other code stores behind the buffer never touches the queue |
| RingReachability.EndIsReachable | include/nexus/transport/LockFreeQueue.h:74-93 | for every buffer of m >= 2 times 2048 bytes a schedule leads to the tail on the end with a message unread |
| RingReachability.DeliveryCanStop | include/nexus/transport/LockFreeQueue.h:74-162 | for every such buffer followed by no usable header, some schedule accepts a message that no continuation delivers while those bytes stay unusable |
| RingReachability.TransportCanStop | include/nexus/transport/SharedMemoryTransportV3.h:212-221 | both rings of an inbound queue can get there, and however the counters behind them change, the message that is left is never delivered |
| RingReachability.SoloWrite | include/nexus/transport/LockFreeQueue.h:56-115 | an undisturbed write for whose frame there is room at the head or at 0 appends exactly its message, at the head whenever it fits there |
| RingReachability.SoloRefusal | include/nexus/transport/LockFreeQueue.h:112-114 | one without room counts a drop and changes nothing else |
| RingReachability.SoloRead | include/nexus/transport/LockFreeQueue.h:123-175 | an undisturbed read with the tail inside the buffer takes exactly the oldest message, on either side of the padding |
| RingLayout.RefusalMeansNearlyFull | include/nexus/transport/LockFreeQueue.h:57-114 | a refused legal write implies size > capacity - 2 * needed; from 4096 bytes on an empty ring accepts every legal message |
| RingLayout.DecideIsRoom | include/nexus/transport/LockFreeQueue.h:69-114 | the space test takes the head iff the frame can go there (in the buffer, over no unread byte, not up to the tail), 0 iff it can go there and not to the head, and refuses iff neither |
| RingLayout.UsedIsFrames | include/nexus/transport/LockFreeQueue.h:180-185 | size() is what the unread frames take up, plus the unused end of the buffer while the ring is wrapped |
| RingLayout.EmptyIff | include/nexus/transport/LockFreeQueue.h:180-185 | head equals tail iff no message is unread |
| RingLayout.FrameHeader | include/nexus/transport/LockFreeQueue.h:211-221 | a written frame header reads back its length and magic |
| LockFreeRingBuffer.RingBuffer.TryWrite | include/nexus/transport/LockFreeQueue.h:56-115 | accepts iff the message has 1 to 2040 bytes and its frame can go to the head or to 0 without touching an unread byte or reaching the tail, goes to the head whenever it can, and appends the message; or changes only the drop counter |
| LockFreeRingBuffer.RingBuffer.TryRead | include/nexus/transport/LockFreeQueue.h:123-175 | yields the oldest message and the rest remains; fails iff there is none; with the tail on the end of the buffer, what each kind of bytes behind it makes of the call |
| LockFreeRingBuffer.RingBuffer.Size | include/nexus/transport/LockFreeQueue.h:180-185 | bytes in use, within the capacity, 0 iff empty, and equal to the frames' bytes and the unused end |
| LockFreeRingBuffer.RingBuffer.WritePadding | include/nexus/transport/LockFreeQueue.h:89-93 | leaves a mark at which the reader turns back, or nothing when the head is on the end |
| Crc32.CalculateCRC32 | src/transport/LargeDataChannel.cpp:69-75 | the table loop equals the bit-serial reflected CRC-32 of section 8 of RFC 1952 on every byte string |
| Crc32Register.TableIsShift8 | src/transport/LargeDataChannel.cpp:37-66 | each of the 256 literal entries is its index pushed through eight polynomial shifts |
| Crc32Register.TableStepIsFeedByte | src/transport/LargeDataChannel.cpp:69-75 | one table round feeds eight bits of the reference register |
| Crc32Register.Shift8Injective | src/transport/LargeDataChannel.cpp:69-75 | a round never merges two registers |
| Crc32.BurstDetected | src/transport/LargeDataChannel.cpp:69-75 | equal-length strings that differ only within four consecutive bytes have different CRCs, at every length |
| Crc32.KnownValues | src/transport/LargeDataChannel.cpp:69-75 | the empty string has CRC 0 and the digits 1 to 9 the check value 0xCBF43926 |
| Crc32.FeedWindow | src/transport/LargeDataChannel.cpp:69-75 | up to four bytes act as one xor followed by whole-byte shifts |
| LargeBlock.DecodeBlock | src/transport/LargeDataChannel.cpp:347-367 | a stored block reads back magic, CRC, the topic cut to 63 bytes, and size and sequence modulo 2^32 and 2^64 |
| LargeProofs.EveryReaderIsServed | src/transport/LargeDataChannel.cpp:261-467 | after every run that keeps the four rules, each active reader stands on a block boundary at most one capacity behind, reads exactly the next published block if its block limit covers it, is told that it exceeds the limit otherwise, and nothing when there is none; and published = released + skipped + pending with increasing sequence numbers |
| LargeProofs.EveryHeldBlockIsIntact | src/transport/LargeDataChannel.cpp:455-467 | after every such run a block held between tryRead and releaseBlock lies unchanged where its handle points, so its release is honoured |
| LargeProofs.RunKeepsInv | src/transport/LargeDataChannel.cpp:261-467 | every such run keeps every block within one capacity of the writer intact in the buffer |
| LargeProofs.ReadDelivers | src/transport/LargeDataChannel.cpp:380-452 | a reader that is behind gets payload, sequence and topic of the block its cursor stands on, or that the block exceeds its limit |
| LargeProofs.WrapLeavesNewBlock | src/transport/LargeDataChannel.cpp:319-345 | right after a wrapping write the backlog of each active reader is exactly the new block |
| LargeWrap.ReleaseAfterWrap | src/transport/LargeDataChannel.cpp:455-467 | the cursor after a wrap between read and release: the release is ignored, and the reader goes on with the new block, iff the new block overwrites the magic of the held header; otherwise the cursor is past the new block, on a boundary iff old and new block have equal size |
| LargeWrap.MagicAfterWrite | include/nexus/transport/LargeDataChannel.h:142-144 | a block stored at 0 leaves a handle on a header further up valid iff the bytes that fall on its magic are those of the magic |
| LargeLimits.WrapOverHeldBlock | src/transport/LargeDataChannel.cpp:319-345 | such a run from the start, for every payload that fits and wraps in a buffer of 1000 bytes, with the outcome decided by its size and its bytes 300 to 303 |
| LargeLimits.LimitIsExact | src/transport/LargeDataChannel.cpp:432-443 | a read succeeds iff the block limit covers the block, and the cursor is on a block boundary afterwards iff it does |
| LargeLimits.SmallLimit | src/transport/LargeDataChannel.cpp:432-443 | a run from the start after which a read with too small a limit leaves every boundary |
| LargeLimits.StrayRelease | src/transport/LargeDataChannel.cpp:455-467 | a release for a slot that holds no block puts the cursor past the block to be read next iff the header its handle points at still carries the magic, and does nothing otherwise |
| LargeLimits.DoubleRelease | src/transport/LargeDataChannel.cpp:455-467 | a run in which a block is released twice, its magic still there, after which a published block is never delivered |
| LargeLimits.ReleaseOfTakenSlot | src/transport/LargeDataChannel.cpp:715-829 | a run in which a silent but living reader is retired, its slot is taken, and its late release, its block's magic still there, makes the new reader miss a block |
| LargeLimits.LateRegistration | src/transport/LargeDataChannel.cpp:715-739 | for every capacity, a run after which a first registration leaves no room for any write |
| LargeReaderCount.ReadersAreCounted | src/transport/LargeDataChannel.cpp:715-829 | over every run num_readers is the number of active readers less the calls that unregistered an unused slot, modulo 2^32; without such calls it is exact |
| LargeProofs.DisjointOffsets | src/transport/LargeDataChannel.cpp:321-345 | ranges less than a capacity apart in the stream of positions do not overlap modulo the capacity |
| LargeChannel.CatchUpNeverFires | src/transport/LargeDataChannel.cpp:397-406 | the catch-up of tryRead leaves an active reader where it is |
| LargeChannel.CanWriteForgetsHeader | src/transport/LargeDataChannel.cpp:519-535 | a write is accepted iff canWrite holds of 128 bytes more |
| LargeChannel.RegistrationStallsWriter | src/transport/LargeDataChannel.cpp:715-739 | after a registration a write is accepted iff it still ends within the first lap |
| LargeChannel.MinReadPos | src/transport/LargeDataChannel.cpp:759-772 | the least cursor of the active readers, or the write position |
| LargeDataChannel.Channel.constructor | src/transport/LargeDataChannel.cpp:227-242 | an empty channel with sixteen free reader slots |
| LargeDataChannel.Channel.Write | src/transport/LargeDataChannel.cpp:261-377 | performs the write step of the runs in place; returns the sequence number iff accepted |
| LargeDataChannel.Channel.AppendBlock | src/transport/LargeDataChannel.cpp:317-377 | places the block, wrapping and moving readers where it does not fit before the end |
| LargeDataChannel.Channel.TryRead | src/transport/LargeDataChannel.cpp:380-452 | registers a caller without a slot, or fails when all are taken, and then performs the read step |
| LargeDataChannel.Channel.ReadSlot | src/transport/LargeDataChannel.cpp:390-452 | the outcome and cursor change of the read step of the runs, in place |
| LargeDataChannel.Channel.Inspect | src/transport/LargeDataChannel.cpp:470-500 | validates a block: magic, size limit, available bytes, CRC, in this order |
| LargeDamage.SuccessIff | src/transport/LargeDataChannel.cpp:470-500 | a read succeeds iff magic, size limit, published bytes and CRC of the payload are in order, and hands out that payload and the header's fields |
| LargeDamage.FailureKinds | src/transport/LargeDataChannel.cpp:470-500 | which failure is reported for which header |
| LargeDamage.WaitsOrSteps | src/transport/LargeDataChannel.cpp:430-443 | the cursor steps over a header iff the block is damaged or too large, and waits otherwise |
| LargeDamage.RetiredCatchesUp | src/transport/LargeDataChannel.cpp:397-406 | a reader that lost its slot is moved up to a position some active reader still needs, or to the write position |
| LargeDamage.DamageIsNeverDelivered | src/transport/LargeDataChannel.cpp:470-500 | a published block whose payload is damaged within any four consecutive bytes is never delivered: CRC error, and the cursor moves by the header alone |
| LargeDamage.RefusedWrite | src/transport/LargeDataChannel.cpp:277-311 | a refused write changes nothing but the readers it retires and, under DROP_NEWEST, the drop counter |
| LargeDamage.ReadersAfterWrite | src/transport/LargeDataChannel.cpp:319-345 | a write that fits before the end leaves every reader where it is; a wrapping one moves exactly the active readers that are behind to the new block |
| LargeDamage.RetiredIff | src/transport/LargeDataChannel.cpp:785-829 | a cleanup at least 30 seconds after the last retires exactly the active readers whose process is gone or that have not read for more than 60 seconds |
| LargeDamage.LiveReaderStays | src/transport/LargeDataChannel.cpp:774-829 | a living reader that reads often enough keeps its slot through every run |
| LargeDataChannel.Channel.ReleaseBlock | src/transport/LargeDataChannel.cpp:455-467 | advances the cursor by header and payload iff the read succeeded and the header still carries the magic; a caller without a slot changes nothing |
| LargeDataChannel.Channel.RegisterReader | src/transport/LargeDataChannel.cpp:715-739 | takes the first free slot at position 0 and counts it, or fails iff all are active |
| LargeDataChannel.Channel.UnregisterReader | src/transport/LargeDataChannel.cpp:742-756 | frees the slot and decrements the reader count; an id out of range changes nothing |
| LargeDataChannel.Channel.GetMinReadPos | src/transport/LargeDataChannel.cpp:759-772 | the loop computes the least active cursor |
| LargeDataChannel.Channel.CleanupDeadReaders | src/transport/LargeDataChannel.cpp:785-829 | at most once per interval and process, retires exactly the readers that are dead or silent and subtracts their number from the reader count |
| LargeDataChannel.Channel.CanWrite | src/transport/LargeDataChannel.cpp:519-535 | compares the free space with the payload size |
| Pending.Conservation | src/transport/SharedMemoryTransportV3.cpp:336-354 | at every instant of every interleaving, modulo 2^32: pending + written but uncounted = queued + consumed but unsubtracted; and no message is lost |
| Pending.ZeroMeansDrained | src/transport/SharedMemoryTransportV3.cpp:1258-1343 | between drains pending is 0 iff the queue holds only the message, if any, whose send has not completed; so every completed send has been consumed |
| Pending.SoloSend | src/transport/SharedMemoryTransportV3.cpp:336-354 | an undisturbed send into a ring with room writes its message and counts it |
| Pending.SoloVisit | src/transport/SharedMemoryTransportV3.cpp:1258-1343 | an undisturbed visit that sees pending other than 0 takes the oldest messages, up to its limit, and subtracts their number |
| Pending.CanUnderflow | src/transport/SharedMemoryTransportV3.cpp:1258-1343 | pending can wrap to 2^32 - 1 for a moment |
| QueueSlots.EveryRunIsSound | src/transport/SharedMemoryTransportV3.cpp:1082-1238 | for any number of senders: num_queues never exceeds the ready slots and equals them when no claim is in progress; the cached list contains every slot counted in the cached count, so with a current count every counted slot; returned slots belong to the caller |
| QueueSlots.RefreshCompletes | src/transport/SharedMemoryTransportV3.cpp:1205-1238 | a receiver that finds its count out of date or its list empty, whatever senders do during its 33 steps, ends with the count it loaded and with every slot that was ready then in its list, and with ready slots only |
| QueueSlots.ListIsReady | src/transport/SharedMemoryTransportV3.cpp:1205-1238 | after every run the receiver's list has no slot twice and only slots ready to be read |
| QueueSlots.LookupFailsOnlyWhenFull | src/transport/SharedMemoryTransportV3.cpp:1098-1167 | a lookup ends without a slot only when it loaded a num_queues of at least max_queues or all 32 slots are taken; at the limit it returns only what it finds |
| QueueSlots.OwnerForever | src/transport/SharedMemoryTransportV3.cpp:1106-1115 | a claimed slot keeps its one owner for the rest of every run |
| QueueSlots.RepeatLookup | src/transport/SharedMemoryTransportV3.cpp:1082-1167 | after any history with no claim in progress, a lookup by a sender that has a slot returns one it had before the call |
| QueueSlots.LookupReturnsOwnSlotIff | src/transport/SharedMemoryTransportV3.cpp:1082-1167 | after any history and whatever happens meanwhile, a lookup ends after at most 69 steps of its own and returns a slot that carried the caller's name before the call iff one of these lay below the num_queues it loaded |
| QueueSlots.LookupRun | src/transport/SharedMemoryTransportV3.cpp:1082-1167 | without such a slot in reach every slot the lookup claims or returns is new to the caller; with one it never claims |
| QueueSlots.LookupEnds | src/transport/SharedMemoryTransportV3.cpp:1082-1167 | every step of its own brings a lookup closer to its end, whatever the others do |
| QueueSlots.DuplicateSlot | src/transport/SharedMemoryTransportV3.cpp:1082-1167 | while another claim is in progress a sender can come to own two slots |
| QueueSlots.QuietMeansCounted | src/transport/SharedMemoryTransportV3.cpp:1106-1157 | with no claim in progress the occupied slots are exactly those below num_queues |
| NodeRegistry.TextRoundTrip | src/registry/SharedMemoryRegistry.cpp:934-968 | a text survives its 64-byte field iff it has no NUL and fewer than 64 bytes |
| NodeRegistry.Insert | src/registry/SharedMemoryRegistry.cpp:376-395 | filling a free slot adds exactly one pair to the map the table represents |
| NodeRegistry.SecondSlotBreaks | src/registry/SharedMemoryRegistry.cpp:359-395 | a second slot for a registered id leaves no map the table could stand for |
| NodeRegistry.Replace | src/registry/SharedMemoryRegistry.cpp:332-354 | overwriting a node's slot changes exactly its pair |
| NodeRegistry.Remove | src/registry/SharedMemoryRegistry.cpp:403-445 | freeing a slot removes exactly its pair |
| NodeRegistry.SlotsFull | src/registry/SharedMemoryRegistry.cpp:359-374 | the search for a free slot fails iff as many pairs exist as slots |
| NodeRegistry.Registry.FindEntryIndex | src/registry/SharedMemoryRegistry.cpp:894-912 | the slot of an id, or -1 iff it is not registered |
| NodeRegistry.Registry.RegisterNode | src/registry/SharedMemoryRegistry.cpp:311-401 | a well-formed call fails iff the id is new and 256 nodes are registered; otherwise exactly this pair is set, under the id as its field keeps it, except that an id with a NUL whose part before it is registered leaves a table no map fits |
| NodeRegistry.Registry.UnregisterNode | src/registry/SharedMemoryRegistry.cpp:403-445 | removes exactly this pair; succeeds iff it was there |
| NodeRegistry.Registry.UpdateHeartbeat | src/registry/SharedMemoryRegistry.cpp:447-480 | changes only the heartbeat of this node; succeeds iff it is registered |
| NodeRegistry.Registry.FindNode | src/registry/SharedMemoryRegistry.cpp:519-546 | map lookup |
| NodeRegistry.Registry.GetAllNodes | src/registry/SharedMemoryRegistry.cpp:482-517 | every registered node with its data, each once, and no other |
| NodeRegistry.Registry.CleanupStaleNodes | src/registry/SharedMemoryRegistry.cpp:569-670 | an entry leaves iff its heartbeat is not 0 and lies more than the timeout behind now, or its pid is not positive or not alive; the others keep their data; returns the number removed |
| RegistryCrash.EveryRunBalances | src/registry/SharedMemoryRegistry.cpp:359-395 | at every store of every run with deaths: num_entries, the call in progress and the recorded deaths account for the valid slots modulo 2^32 |
| RegistryCrash.DriftIsBoundedByDeaths | src/registry/SharedMemoryRegistry.cpp:311-670 | with the lock free the counter differs from the valid slots by at most the number of deaths, and is exact without deaths |
| RegistryCrash.DriftStays | src/registry/SharedMemoryRegistry.cpp:311-670 | no call that completes ever repairs or adds to the drift |
| RegistryCrash.OneDeathDrifts | include/nexus/registry/SharedMemoryRegistry.h:184-228 | the bound is met for good: after one death, along every continuation without a death, the counter is one short of the valid slots whenever the lock is free |
| RegistryCrash.OrphanStays | src/registry/SharedMemoryRegistry.cpp:595-603 | a valid slot without heartbeat is neither freed by cleanup nor reused along every continuation, deaths included, until a call finds its id in it |
| RegistryCrash.DeathOrphans | src/registry/SharedMemoryRegistry.cpp:359-384 | a death leaves a slot without heartbeat orphaned iff the slot is valid: in a registration, from the claim on |
| RegistryCrash.FindersEndIt | src/registry/SharedMemoryRegistry.cpp:403-480 | an unregistration that finds it frees the slot, a heartbeat or a renewed registration makes it subject to cleanup again |
| RegistryCrash.ClaimThenDeath | src/registry/SharedMemoryRegistry.cpp:359-384 | a run that leaves such a slot |
| RegistryCrash.RegisterCompletes | src/registry/SharedMemoryRegistry.cpp:359-395 | a registration that completes makes its slot valid, gives it a heartbeat and counts it |
| RegistryCrash.CleanupCompletes | src/registry/SharedMemoryRegistry.cpp:569-670 | a cleanup that completes frees exactly the stale slots that are valid and have a heartbeat |
| MessageQueues.EveryRunIsOrdered | src/core/NodeImpl.cpp:784-894 | every run keeps each queue within the limit, hands out each (group, topic) as an in-order subsequence of what was enqueued, and accepted = handed out + queued + lost, where DROP_OLDEST and DROP_NEWEST count every loss and BLOCK none |
| MessageQueues.EnqueueIff | src/core/NodeImpl.cpp:786-794 | an enqueue is taken up iff the node is subscribed to the message's group and topic, and counts a loss iff it meets a full queue |
| MessageQueues.LostIffFull | src/core/NodeImpl.cpp:817-844 | over every run nothing is lost iff no message meets a full queue |
| MessageQueues.BatchHandsOut | src/core/NodeImpl.cpp:887-894 | a batch hands out the oldest messages of its thread, 16 or all of them, and leaves the other threads alone |
| MessageQueues.OldestAreLost | src/core/NodeImpl.cpp:817-844 | under DROP_OLDEST and BLOCK each queue always holds exactly the newest messages routed to it |
| MessageQueues.NewestAreLost | src/core/NodeImpl.cpp:831-836 | under DROP_NEWEST what a thread has handed out and holds is only ever extended: nothing kept is displaced |
| MessageQueues.Route | src/core/NodeImpl.cpp:804-806 | a message goes to one of the four threads, the hash of its group and topic modulo four |
| MessageQueues.Node.EnqueueMessage | src/core/NodeImpl.cpp:784-868 | performs the enqueue step of the runs in place; an unsubscribed message changes nothing |
| MessageQueues.Node.Subscribe | src/core/NodeImpl.cpp:329-349 | adds exactly the topics that are not empty to the group; refuses an empty group or list |
| MessageQueues.Node.TakeBatch | src/core/NodeImpl.cpp:870-894 | takes the oldest messages, at most 16 and fewer only when the queue is emptied |
| ServiceRegistry.RegistrationsSurvive | src/registry/GlobalRegistry.cpp:77-119 | over every sequence of registrations each group holds one entry per node and capability, in order of first appearance: the first shared-memory descriptor if any was registered, else the first; a group exists iff something was registered in it |
| ServiceRegistry.SurvivorsOfGroup | src/registry/GlobalRegistry.cpp:88-118 | the same for one group |
| ServiceKeys.SameKeyIff | include/nexus/core/Node.h:49-55 | within a group two services of a node have one key iff their topics, or channel/topic for large data, agree as texts |
| ServiceKeys.PlainKeyIff | include/nexus/core/Node.h:49-55 | without slashes in the names: iff node, topic and, for large data, channel agree |
| ServiceKeys.KeysCollide | include/nexus/core/Node.h:49-55 | with a slash in a topic two different services have one key |
| ServiceKeys.RegisteredIsFound | src/registry/GlobalRegistry.cpp:77-119 | after any registrations under own groups with plain names, every registered service has its entry, and only one, with its node, topic and channel, through shared memory if it was ever registered so |
| ServiceRegistry.EveryRunIsUnique | src/registry/GlobalRegistry.cpp:28-137 | no run of registrations and removals leaves an empty group or two entries with one node and capability |
| ServiceRegistry.EveryRunKeepsOwn | src/registry/GlobalRegistry.cpp:77-137 | when registrations name their own group, every service stays under the group it names |
| ServiceRegistry.LeaveIsDrop | src/core/NodeImpl.cpp:1187-1199 | the one-by-one removal over a snapshot leaves the map of unregisterNode iff each service of the node shares its topic with one that names the group it sits in |
| ServiceRegistry.OwnGroupsCovered | src/core/NodeImpl.cpp:1187-1199 | the condition holds whenever every service sits under its own group |
| ServiceRegistry.LeftBehind | src/core/NodeImpl.cpp:1187-1199 | a service registered under a group it does not name is left behind |
| ServiceRegistry.LeaveLoopKeepsInv | src/core/NodeImpl.cpp:1187-1199 | the one-by-one removal keeps groups unique, non-empty and own |
| ServiceRegistry.GlobalRegistry.RegisterService | src/registry/GlobalRegistry.cpp:77-119 | the loop performs the registration step and keeps groups unique and non-empty |
| ServiceRegistry.GlobalRegistry.UnregisterService | src/registry/GlobalRegistry.cpp:121-137 | removes exactly the services of this node and topic from the group, and the group when it becomes empty; other groups stay |
| ServiceRegistry.GlobalRegistry.UnregisterNode | src/registry/GlobalRegistry.cpp:21-48 | forgets the node and removes exactly its services from every group, and groups that become empty, in whatever order groups are visited |
| ServiceRegistry.GlobalRegistry.FindServices | src/registry/GlobalRegistry.cpp:139-158 | one group's services, or all groups one after the other, each once |
| ServiceRegistry.GlobalRegistry.HandleNodeLeft | src/core/NodeImpl.cpp:1175-1199 | ignores the node itself; otherwise has the effect of unregisterNode iff the condition of LeaveIsDrop holds |
| Routing.SelectTargets | src/core/NodeImpl.cpp:626-686 | the loop sends to the first usable service of each wanted node, by node id or by endpoint |
| Routing.SelectionIsExact | src/core/NodeImpl.cpp:582-686 | each remote node at most once, never the sender or an in-process node, and exactly the nodes with a normal service on the topic that is in shared memory or has a usable address |
| Routing.EndpointIff | src/core/NodeImpl.cpp:670-683 | an address is usable iff it is a host, a colon and a number, the first colon counting; 0.0.0.0 stands for the loopback address, and the port is taken modulo 65536 |
| Routing.TargetsSplit | src/core/NodeImpl.cpp:661-702 | every picked service is listed for exactly one send, by its node id or by its address' endpoint |
| Routing.DeliverInterProcess | src/core/NodeImpl.cpp:595-702 | the sends are those of the picked services, with each transport's list dropped while it is not initialised |
| Routing.SendsMatchTransports | src/core/NodeImpl.cpp:688-702 | there are exactly as many sends as picked services whose transport is up |
| Routing.DeliveredNeverFires | src/core/NodeImpl.cpp:656-659 | with the registry's uniqueness and own groups the duplicate filter never rejects a wanted service |
| Routing.PublishAfterAnyHistory | src/core/NodeImpl.cpp:308-327 | so after every history of own-group registrations and removals |
| Packet.PacketRoundTrip | include/nexus/core/Message.h:117-193 | for every message: a built packet is handed on unchanged iff group and topic have at most 128 bytes, the payload at most 65000, and the node id no NUL and at most 63 bytes |
| Packet.BuiltIsAccepted | include/nexus/core/Message.h:117-129 | a built packet passes validation iff its lengths, cut to their fields, are within the limits; validation never reads past it |
| Packet.AcceptedParts | src/core/NodeImpl.cpp:1676-1700 | type, node id and lengths of every accepted packet, also of one whose lengths were cut |
| Packet.DamageIsDetected | include/nexus/core/Message.h:91-129 | changing any one byte of group, topic or payload makes an accepted packet be refused |
| PacketDamage.OneByteDamage | include/nexus/core/Message.h:91-129 | any one changed byte of an accepted packet is noticed, except the reserved byte, the node id behind its terminator and what follows the data, which change nothing |
| Packet.ControlIffNotData | src/transport/SharedMemoryTransportV3.cpp:75-88 | isControlMessage holds of a built packet iff its type is not DATA |
| Packet.ChecksumIgnoresItself | include/nexus/core/Message.h:91-114 | storing the checksum does not change it |
| Packet.CalculateChecksum | include/nexus/core/Message.h:91-114 | the loops compute the sum of fields, node id up to its NUL and data, modulo 2^32 |
| Packet.Build | include/nexus/core/Message.h:164-193 | fills the buffer with exactly the packet the theorems speak of, for every length |
| ServiceCodec.ServiceRoundTrip | src/core/NodeImpl.cpp:1209-1233 | decoding an encoded descriptor gives it back iff its channel name has at most 255 and its address at most 65535 bytes |
| ServiceCodec.AnnouncementArrives | src/core/NodeImpl.cpp:1316-1405 | encoded, built, parsed and decoded, an announcement that is not dropped in between makes another node register or unregister exactly the announced descriptor, iff every part fits its field and the receiver is not the sender |
| ServiceCodec.UnregistrationArrives | src/core/NodeImpl.cpp:1402-1407 | from the packet to the map: an announcement that a service is gone removes exactly what the receiver has of that node and topic in the group |
| ServiceCodec.RegistrationArrives | src/core/NodeImpl.cpp:1396-1401 | from the packet to the map: a registration gives the receiver an entry with the service's node and capability |
| ServiceCodec.AnnouncementIsNoQuery | src/core/NodeImpl.cpp:1323-1364 | the exact condition for an announcement to be taken for the empty-payload query: its encoded length is a positive multiple of 2^32; below that never |
| ServiceCodec.QueryIsAnswered | src/core/NodeImpl.cpp:1103-1117 | the query packet makes every other node answer the sender |
| ServiceCodec.DepartureArrives | src/core/NodeImpl.cpp:1155-1199 | the packet of a node that leaves makes every other node drop exactly its services |
| ServiceCodec.ArrivalsKeepGroups | src/core/NodeImpl.cpp:1366-1405 | whatever bytes arrive, registrations, removals and departures leave services only under the group they name, and uniqueness is kept |
| SystemQueue.EveryRunReplays | src/core/NodeImpl.cpp:921-1006 | over every run of arrivals and turns of the system thread, the accepted messages are those of the packets; the service map is what the handled messages make of it in order; these are an in-order selection of those accepted, the rest being queued or lost; nothing is lost iff no message meets a queue of 1000, and then the handled are the first of those accepted |
| SystemQueue.LostIffFull | src/core/NodeImpl.cpp:995-1002 | messages are lost iff one to be queued meets a full queue |
| SystemQueue.ThreadDrains | src/core/NodeImpl.cpp:921-972 | the system thread left alone handles all that is queued, oldest first |
| SystemQueue.PushedIsNewest | src/core/NodeImpl.cpp:995-1002 | the queue holds the newest 1000 messages |
| SystemQueue.QueuedReacts | src/core/NodeImpl.cpp:1702-1735 | queueing a packet and handling it later is the reaction the codec theorems speak of |
| SystemQueue.SystemThread.EnqueueSystemMessage | src/core/NodeImpl.cpp:979-1006 | appends the message, dropping the oldest of a full queue |
| SystemQueue.SystemThread.ProcessPacket | src/core/NodeImpl.cpp:1676-1735 | queues exactly the service and node messages of other nodes |
| SystemQueue.SystemThread.Next | src/core/NodeImpl.cpp:921-941 | takes out the oldest message, if any |
| ServiceExchange.AnswerQuery | src/core/NodeImpl.cpp:1324-1364 | one registration packet for each service of the answering node, in order, and no other |
| ServiceExchange.QueryTeachesServices | src/core/NodeImpl.cpp:1324-1364 | after the answers have arrived the asking node has, for every announceable service of the answering node, an entry with its node and capability, through shared memory if the service is |
| ServiceExchange.RepliesNameOnlySelf | src/core/NodeImpl.cpp:1330-1362 | whatever the answers add is a service of the answering node |

## Left out

- C++ memory orders and torn reads, among them texts of a slot read while they are being written: atomics are sequentially consistent, and a sender's id becomes visible in one step.
- Opening, sizing, mapping and removing shared memory, orphan scans and reference counts: operating-system calls.
- Condition variables, semaphores, timeouts, adaptive sleeps and congestion levels: timing only; a failing `sem_init` during a slot claim as well.
- Wrap-around of 64-bit positions and counters in the large-data channel and of the ring statistics.
- Refused sends of answers to a query, registrations by the node itself between two system messages, and the shutdown of the system thread.
- Steps inside `LargeDataChannel::write`: a write is one step, so a reader that runs while a wrap moves cursors is not covered.
- The version counters of registry slots and the retry loop around them.
- UDP sockets, heartbeats and port selection. Only the split at the colon and the loopback replacement of an endpoint are modelled; number parsing is a parameter.
- Parsing of packets that claim more data than arrived is named (`OverRead`) and not followed further; the QNX layout variant is left out.
- Weak references to nodes that expired, and the disconnection from a node that left.
- User callbacks, logging, configuration and memory-footprint arithmetic: easy members.
- `deliverInProcess` hands a message to every other node of the process; `discoverServices` and `findNodesByCapability` are plain filters of `findServices`.
- LargeProofs.EveryReaderIsServed: only runs that keep the four rules of `LargeRuns.Polite` (registration during the first lap, no wrap over a held block, a reader's block limit covers the block it reads, a used slot is released once per successful read of its own); `LargeLimits` says what happens otherwise. Two processes that use one slot are one reader. The writer's block limit is below 2^32.
- RegistryCrash.DriftIsBoundedByDeaths: the stores to texts, pid and version are counted but their values are not modelled; of the heartbeat only whether it is 0. Which id a half-written text reads as is therefore left open.
- Pending.ZeroMeansDrained: one queue and one sender at a time, as each inbound queue has; its ring holds fewer than 2^32 messages.
- QueueSlots.EveryRunIsSound: slots are never released, as in the source.
- MessageQueues.EveryRunIsOrdered: constant policy and a limit of at least 1 (with 0 the source pops an empty queue); the subscription test and the insertion are one step.
- Routing.PublishAfterAnyHistory: a publish to the empty group is refused before routing (`src/core/NodeImpl.cpp:309-311`) and not modelled.
