# ODP for MPPA: a verified model

[OpenDataPlane](https://www.opendataplane.org) for Kalray MPPA carries events and packets between
threads: lock-free rings, scheduled queues, an IPsec forwarding example, and the small concurrent
and byte-level pieces they rest on. This project models their core and proves, for all inputs and
all interleavings, what they are for.

| part | files | main results |
|---|---|---|
| lock-free ring | `RingBuffer`, `RingProtocol`, `RingFifo`, `RingProgress`, `RingLap` | every interleaving of any number of producers and consumers is a bounded FIFO, across 32-bit wrap; calls give up exactly for want of room, and some call can always go on |
| event queues and scheduler | `QueueSpec`, `QueueList`, `Scheduler*`, `QueueLocks` | no lost wake-up, exactly-once delivery, atomic exclusion and order, commands freed once, waiting events are found in priority order, and what early use of a queue does to that; lock pairs never deadlock |
| IPsec transport mode | `PacketBytes`, `Ipsec`, `IpsecIn`, `IpsecPackets`, `IpsecPushHead`, `IpsecWire`, `IpsecMismatch` | the in-place stages produce the protected packet, given byte by byte; decapsulation restores it, with the exact exceptions; the two applications send the same packet |
| hash table | `LinkedList`, `HashTable` | a linked, pooled heap structure refines a bounded finite map |
| CRC32C | `Crc32c` | slicing by eight equals the bitwise definition, and when zero padding shows |
| barrier and locks | `Barrier`, `RwLock`, `RwLockProgress`, `RwLockDepth`, `RecursiveSpinLock` | whole-run safety for any number of threads and rounds, and exactly who waits for whom |
| PCIe receive ring | `RxRing` | descriptors are passed and retired once each, in order |
| segmented packets | `SegmentedPacket` | copies across any segmentation are flat copies, and exactly when they end |
| CPU masks | `CpuMask` | the text denotes the number of the mask; round trip, with exact buffer bound |

`Bits`, `Tables` and `Wrappers` hold shared arithmetic, finite maps with a default and sequences without repetition, and `Option`.

How the model is built:

- Concurrent code is a transition system: one step for each access to shared memory that another
  thread can observe, or for each locked section. A run is any sequence of steps by any threads.
  Counters are unbounded, with explicit reduction to 32 or 8 bits wherever the program stores or compares them;
  histories (what was produced, delivered, freed) are part of the state only to state properties.
- Code that updates memory in place is imperative: arrays, classes and loops, each method proved
  against a specification function, and the properties proved about that function.
- The environment is a parameter: cipher, MAC and checksum are arbitrary functions (deciphering
  undoes enciphering, lengths are kept), allocation may fail, transfers complete whenever they do.

Where code and documentation disagree the model follows the code:

- ring creation accepts 0 although its comment asks for a power of two (`RingBuffer.CreateAcceptsIff`);
- the watermark test counts one entry more than are queued, so the quota is reported when the mark is
  reached, not exceeded (`RingBuffer.Ring.SpEnqueue`);
- the comment that the unsigned difference always lies between 0 and the ring size - 1 is not true for
  counters read at different times; the exchange makes it true where it matters (`RingProtocol.ProdCasExact`);
- the key hash never advances along the key (`HashTable.SameBucket`);
- the barrier's counter reaches twice the count, one more than its comment says (`Barrier.CounterBounded`);
- the CRC of data whose length is not a multiple of four is that of the data with zero bytes appended
  (`Crc32c.PlainCrcIff`);
- a transport-mode packet that carries IPv4 is decapsulated as a tunnel packet, and an AH-only packet
  that carries ESP is taken for AH plus ESP (`IpsecIn.OnlySurvivors`);
- an entry for AH and ESP also takes packets with only one of the headers, and then cuts their payload or
  checks the wrong bytes (`IpsecMismatch.AhLosesPayload`, `IpsecMismatch.EspUnderBoth`);
- the inbound policy compares addresses in different byte orders (`IpsecPackets.PolicyIff`);
- a queue can be found by name before it has a command, and keeps its entry if it never gets one
  (`SchedulerCreation.EarlyUseIff`);
- the range tests of packet copies wrap (`SegmentedPacket.PassesIff`);
- a received packet of length 0 is treated as an error packet (`RxRing.RxQueue.CleanRx`);
- the read recursion count is one byte wide (`RwLock.ReadDepth`);
- adding so much data that the length comes round shortens the packet (`SegmentedPacket.AddData`);
- removing all data of a packet gives a packet of the pool's buffer size (`SegmentedPacket.RemData`).

## Model

| member | source | states |
|---|---|---|
| `RingBuffer.CreateAcceptsIff` | helper/ring.c:163-168 | the size test of ring creation lets through exactly the powers of two up to the limit, and also 0, which its comment and error text exclude |
| `RingBuffer.EnqueueUnrolled` | helper/ring.c:93-107 | the copy unrolled by four with its fall-through remainder stores every pointer of the burst at its own slot and touches no other slot |
| `RingBuffer.EnqueueWrapping` | helper/ring.c:108-113 | the split copy stores the burst in the window that goes round the end of the ring and touches no other slot |
| `RingBuffer.EnqueuePtrs` | helper/ring.c:90-114 | for every 32-bit head, object k of the burst ends up in the slot of counter value head + k and every other slot is as it was, whichever copy was used |
| `RingBuffer.DequeueUnrolled` | helper/ring.c:122-136 | the unrolled load fetches the burst in order and leaves the rest of the table alone |
| `RingBuffer.DequeueWrapping` | helper/ring.c:137-142 | the split load fetches the two pieces in order and leaves the rest of the table alone |
| `RingBuffer.DequeuePtrs` | helper/ring.c:119-143 | the table gets exactly the queued objects from the head on, in order |
| `RingBuffer.CountsAcrossWrap` | helper/ring.c:495-530 | full, empty, count and free count tell the true fill level after any number of 32-bit wraps of the counters |
| `RingBuffer.WatermarkDisabled` | helper/ring.c:208-219 | a ring whose watermark equals its size never reports the quota |
| `RingBuffer.StoredExtends` | helper/ring.c:90-114 | storing a burst behind the queued objects appends it to the sequence a consumer will read, across the wrap of the 32-bit counter |
| `RingBuffer.QueuedSplit` | helper/ring.c:119-143 | what the consumer reads splits into the burst it takes and what is left from the advanced tail |
| `RingBuffer.Ring.constructor` | helper/ring.c:179-193 | a new ring is empty, with watermarking off |
| `RingBuffer.Ring.SetWaterMark` | helper/ring.c:208-219 | out-of-range marks are refused, 0 turns the mark off, the queued objects stay |
| `RingBuffer.Ring.SpEnqueue` | helper/ring.c:297-345 | the ring stands for the old sequence followed by as much of the burst as fits (nothing for a fixed burst that does not fit), and the return value tells bulk, burst, quota and no-space cases apart |
| `RingBuffer.Ring.ScDequeue` | helper/ring.c:415-452 | the old sequence is what was handed out followed by what is left; a fixed burst that is not there in full hands out nothing |
| `RingProtocol.WireSlot` | helper/ring.c:90-143 | the slot computed from the 32-bit head is the slot of the unbounded counter |
| `RingProtocol.ProdCasExact` | helper/ring.c:236-268 | when the exchange on prod.head succeeds, the head has not moved since it was read and the burst fits behind it, although cons.tail was read earlier |
| `RingProtocol.ConsCasExact` | helper/ring.c:362-393 | the same for cons.head: everything reserved has been published |
| `RingProtocol.PublishInOrder` | helper/ring.c:285-290 | a producer passes the wait on prod.tail only when every earlier reservation has been published |
| `RingProtocol.ReleaseInOrder` | helper/ring.c:402-407 | a consumer passes the wait on cons.tail only when every earlier reservation has been released |
| `RingProtocol.ReadsTheItem` | helper/ring.c:395-396 | each load of a consumer gets the object produced under that number: it is published and its slot has not been reused |
| `RingProtocol.StepKeeps` | helper/ring.c:224-452 | every atomic step of any thread keeps the ring invariant: ordered counters, tiled reservations, reserved and published slots intact |
| `RingProtocol.RunKeeps` | helper/ring.c:224-452 | the ring invariant holds in every state of every run of any number of producers and consumers |
| `RingFifo.RunSafety` | helper/ring.c:224-410 | in every reachable state cons.tail <= cons.head <= prod.tail <= prod.head <= cons.tail + mask, every reserved entry has exactly one owner, and what was handed back is a prefix of what was put in |
| `RingFifo.StoreHitsFreeSlot` | helper/ring.c:270-271 | no store of a producer lands on the slot of another entry that is reserved, published or being read |
| `RingFifo.StepRefines` | helper/ring.c:224-452 | every step of the protocol is a step of a FIFO bounded by mask: publishing appends, a successful consumer exchange removes from the front, nothing else changes it |
| `RingFifo.DequeueReturnsItsItems` | helper/ring.c:351-410 | the table a dequeue returns is exactly the stretch its exchange took off the FIFO |
| `RingFifo.RunIsFifo` | helper/ring.c:224-452 | along any run everything enqueued is, in order, everything dequeued followed by what is queued: nothing lost, duplicated or reordered |
| `RingFifo.QuotaAtExchange` | helper/ring.c:273-279 | a multi-producer enqueue reports the quota exactly when the use it saw and its burst reach the watermark, so whenever the true use does, never with the watermark disabled, and it returns what a single producer would |
| `RingProgress.EnqueueOutcome` | helper/ring.c:236-268 | an enqueue that has read both counters gives up exactly when the entries it found free are fewer than it asked for, or none if it takes fewer; otherwise its exchange succeeds exactly on an unmoved head, and on a moved one it starts again |
| `RingProgress.DequeueOutcome` | helper/ring.c:362-394 | the same for a dequeue and the entries it found queued |
| `RingProgress.ReservesBurst` | helper/ring.c:246-268 | a successful exchange reserves the whole burst, or for a variable one as much as was found free |
| `RingProgress.ClaimsBurst` | helper/ring.c:372-394 | the same for a dequeue |
| `RingProgress.EnqueueFailureJustified` | helper/ring.c:243-259 | in every run, an enqueue that gives up read cons.tail at a step when fewer entries were free than it asked for, and none at all for a variable burst; it changes nothing |
| `RingProgress.EnqueueProceeds` | helper/ring.c:249-268 | with room enough when it read cons.tail and an unmoved head, the exchange can be made and the call can do nothing else |
| `RingProgress.DequeueFailureJustified` | helper/ring.c:364-384 | in every run, a dequeue that gives up read prod.tail at a step when fewer entries were queued than it asked for, and none at all for a variable burst; it changes nothing |
| `RingProgress.DequeueProceeds` | helper/ring.c:372-394 | with entries enough when it read prod.tail and an unmoved head, the exchange can be made and the call can do nothing else |
| `RingProgress.SomeoneProceeds` | helper/ring.c:224-410 | in every run, while any call is going on some call can take a step: waiting to publish is for an earlier reservation only |
| `RingFifo.CasRecognisesHead` | helper/ring.c:262-268 | the 32-bit exchange tells an unmoved head from a moved one if and only if fewer than 2^32 objects went by since the read |
| `RingLap.LapDefeatsTheExchange` | helper/ring.c:236-268 | a run of the ring, every step of it allowed, that ends 2^32 objects after one producer read the counters: its exchange finds the word it read although the ring is full, and would overfill it |
| `QueueSpec.BurstIsSingles` | platform/linux-generic/odp_queue.c:545-597 | enqueueing a burst of any length is enqueueing its events one by one, and exactly one of these calls wakes the queue if the burst does, none otherwise |
| `QueueSpec.DestroyEnds` | platform/linux-generic/odp_queue.c:295-352 | a queue can be destroyed exactly when it is alive and empty; then it refuses events and gives none, and its command is freed exactly once, at once or by the finalize |
| `QueueList.ChainJoin` | platform/linux-generic/include/odp_queue_internal.h:190-200 | linking the last header of one list to the first of another gives the one list of both |
| `QueueList.QueueEntry.AddList` | platform/linux-generic/include/odp_queue_internal.h:190-200 | an already linked list is appended through the tail pointer: the headers reachable from head are the old ones followed by the new |
| `QueueList.QueueEntry.Enq` | platform/linux-generic/odp_queue.c:406-426 | the linked list stands for the event sequence with the event appended; a free or destroyed queue refuses it; a NOTSCHED queue becomes SCHED and must be woken |
| `QueueList.QueueEntry.EnqMulti` | platform/linux-generic/odp_queue.c:554-597 | linking the headers of a burst and appending the chain appends its events in order, with the same refusal and wake-up |
| `QueueList.QueueEntry.Deq` | platform/linux-generic/odp_queue.c:637-681 | the front header leaves the list unlinked; dequeueing from an empty queue takes it out of scheduling |
| `QueueList.QueueEntry.DeqMulti` | platform/linux-generic/odp_queue.c:684-737 | the first min(num, length) headers leave in order and unlinked; a destroyed queue answers -1 and is left alone |
| `QueueList.QueueEntry.DestroyQueue` | platform/linux-generic/odp_queue.c:306-352 | refused for a queue that is free, destroyed or not empty; otherwise freed at once unless the scheduler still has it |
| `QueueList.QueueEntry.Finalize` | platform/linux-generic/odp_queue.c:295-304 | completes exactly a pending destroy |
| `QueueList.LinkChain` | platform/linux-generic/odp_queue.c:554-559 | the chaining loop turns the array of headers into one linked list in array order |
| `QueueList.UnlinkFront` | platform/linux-generic/odp_queue.c:709-725 | the dequeue loop stores and unlinks headers from the front, and leaves the rest a list |
| `SchedulerTokens.TokenInvStep` | platform/linux-generic/odp_schedule.c:330-584 | every step of every thread keeps each command event in at most one place, the one its queue status says |
| `SchedulerLifecycle.HeldIsLive` | platform/linux-generic/odp_schedule.c:386-395 | a command held by a thread is allocated and is that thread's alone |
| `SchedulerLifecycle.CountInvStep` | platform/linux-generic/odp_schedule.c:281-302 | pri_count and the mask bits go on counting the allocated commands of each priority queue, and the decrement never goes below zero |
| `SchedulerLifecycle.InstInvStep` | platform/linux-generic/odp_schedule.c:330-358 | every step keeps the life of each queue: published once, its command freed by the one step that ends it |
| `SchedulerOrder.SoleContext` | platform/linux-generic/odp_schedule.c:565-568 | at most one thread has cached events of an atomic queue, during its life and after it was destroyed |
| `SchedulerOrder.Drained` | platform/linux-generic/odp_schedule.c:446-455 | an atomic queue is served again only after every event taken from it has been handed over |
| `SchedulerRuns.InvStep` | platform/linux-generic/odp_schedule.c:281-584 | every step of publishing, initialising or failing to initialise a queue, enqueue, wake-up, poll, schedule, release, destroy and finalize keeps the whole scheduler invariant, if queues are used only after their creation returned |
| `SchedulerRuns.RunKeeps` | platform/linux-generic/odp_schedule.c:281-584 | it holds in every state of every such run of any number of threads |
| `SchedulerRuns.NoLostWakeup` | platform/linux-generic/odp_queue.c:406-426 | in every reachable state a queue that holds events is SCHED, and its command is once in its unmasked priority queue or with exactly one thread |
| `SchedulerRuns.IdleQueueHasNoToken` | platform/linux-generic/odp_queue.c:698-707 | a queue out of scheduling is empty and its command is in no priority queue and with no thread |
| `SchedulerRuns.MaskIsExact` | platform/linux-generic/odp_schedule.c:281-302 | a mask bit is set exactly while some allocated command lives in its slot, pri_count is their number, and no command waits where schedule() does not look |
| `SchedulerRuns.AtomicExclusive` | platform/linux-generic/odp_schedule.c:565-568 | two threads are never in the atomic context of one queue |
| `SchedulerRuns.AtomicInOrder` | platform/linux-generic/odp_schedule.c:438-584 | what applications got from an atomic queue is a prefix of what was enqueued to it, over its whole life and whichever threads served it |
| `SchedulerRuns.ExactlyOnce` | platform/linux-generic/odp_schedule.c:419-584 | every enqueued event is in exactly one place: queued, cached by one thread, or handed over once; and nothing else is handed over |
| `SchedulerRuns.FreedOnce` | platform/linux-generic/odp_schedule.c:330-358 | the command of each queue ever created is freed at most once, and then the queue is gone and drained; until then it is allocated, unless the creation is still going on or failed, and then nothing was ever enqueued to the queue |
| `SchedulerCreation.DisciplineIsExact` | platform/linux-generic/odp_queue.c:251-293 | a step from an invariant state keeps the invariant if and only if it does not enqueue to or destroy a queue that is published but whose creation has not returned its handle |
| `SchedulerCreation.EarlyUseStrands` | platform/linux-generic/odp_queue.c:264-290 | in every invariant state, events enqueued to a queue found by name before its command is allocated are stranded when the allocation fails or had failed: the queue is SCHED without a command |
| `SchedulerCreation.EarlyUseRecovers` | platform/linux-generic/odp_queue.c:264-290 | when the allocation then succeeds, the state is the one in which the queue was used after its creation, and the whole invariant holds |
| `SchedulerCreation.EarlyUseIff` | platform/linux-generic/odp_queue.c:264-290 | so after an early enqueue the return of the creation leaves an invariant state if and only if it succeeded |
| `SchedulerCreation.EarlyUseHappens` | platform/linux-generic/odp_queue.c:264-290 | a run from the initial state that strands an event, with the early enqueue as its only undisciplined step |
| `SchedulerCreation.StrandedForever` | platform/linux-generic/odp_schedule.c:330-348 | whatever steps any thread takes afterwards, that event is never dequeued and the queue cannot be destroyed |
| `SchedulerPriorities.RunHomeIsPriority` | platform/linux-generic/odp_schedule.c:281-348 | in every reachable state the command of a queue lives, and is queued, at the priority of the queue and the place its two low bits give |
| `SchedulerPriorities.CreatedAs` | platform/linux-generic/odp_queue.c:251-281 | in every run a queue keeps the priority and the kind of scheduling it was created with until its entry is free again |
| `SchedulerPriorities.PollStarts` | platform/linux-generic/odp_schedule.c:360-384 | polling an interface starts behind the other commands of its priority, where the mask shows it |
| `SchedulerSearch.SearchPriority` | platform/linux-generic/odp_schedule.c:465-483 | the four queues of a priority are visited once each from the thread's own on, up to the first visit that brings events, whatever other threads change meanwhile |
| `SchedulerSearch.Search` | platform/linux-generic/odp_schedule.c:460-483 | the search ends at the first visit, in priority order and round order, that finds its mask word and bit set and brings events, and without one only after all visits, whatever other threads change meanwhile |
| `SchedulerSearch.BestSlot` | platform/linux-generic/odp_schedule.c:460-483 | if nothing changes meanwhile that is the best slot there is: highest priority, then nearest from the thread's own, and none is missed |
| `SchedulerProgress.VisitEnds` | platform/linux-generic/odp_schedule.c:485-577 | one visit of a priority queue, as steps of the scheduler: if the command at the head is of a queue with events that the thread may have, the oldest of them come, as many as are asked for and there; if not, exactly that command goes to the back or out |
| `SchedulerProgress.Sweep` | platform/linux-generic/odp_schedule.c:460-577 | the loops over the scheduler state: a search without events brings the command of every waiting queue of the thread nearer to its turn; one with events ends at the place that the priority and the number of their queue give, no later in the search order than a queue whose command is next |
| `SchedulerProgress.Schedule` | platform/linux-generic/odp_schedule.c:438-583 | one undisturbed call hands over what is left from before, or the oldest events of one queue of the thread, exactly as many as are there, asked for and dequeued at a time; no queue with events whose command is next has a lower priority number, or the same and a place nearer to the thread; without events every waiting queue of the thread is nearer, a command the thread itself kept included |
| `SchedulerProgress.ScheduleWait` | platform/linux-generic/odp_schedule.c:586-617 | from every reachable state, if a queue of the caller has events and no other thread has its command, an undisturbed caller that waits is given events: the wait loop ends |
| `QueueLocks.RunKeeps` | platform/linux-generic/odp_queue.c:55-82 | in every run each lock is owned by the thread that took it and by no other |
| `QueueLocks.WaitsUpward` | platform/linux-generic/odp_queue.c:55-75 | whoever holds up a waiting thread does not wait, or waits for a higher lock |
| `QueueLocks.NoCycle` | platform/linux-generic/odp_queue.c:55-82 | in no reachable state do threads wait for each other in a cycle, for any pairs of queues, equal ones included |
| `QueueLocks.SomeoneProceeds` | platform/linux-generic/odp_queue.c:55-82 | whenever a thread is inside, a thread that is inside can take a step |
| `QueueLocks.ExactlyItsLocks` | platform/linux-generic/odp_queue.c:55-82 | between get and free a thread has exactly the locks of its two queues, and none after, in whichever order it passes them to free_qe_locks |
| `QueueLocks.MutualExclusion` | platform/linux-generic/odp_queue.c:55-75 | two threads are never inside for a common queue |
| `Ipsec.EncodeLenMacro` | example/ipsec/odp_ipsec_misc.h:45-45 | ESP_ENCODE_LEN is the least multiple of the block length that is not smaller |
| `Ipsec.OutLayout` | example/ipsec/odp_ipsec.c:804-935 | for every payload length, SA and cipher block the classify stage leaves the grown IPv4 header, AH, ESP header, payload, padding and trailer where RFC 4302 and RFC 4303 put them |
| `Ipsec.OutTrailer` | example/ipsec/odp_ipsec.c:873-891 | with ESP the bytes to encipher are a whole number of blocks, at least payload and two bytes and less than a block more, and end with the number of padding bytes and the payload protocol |
| `Ipsec.SeqLayout` | example/ipsec/odp_ipsec.c:955-967 | writing the sequence numbers changes nothing else |
| `Ipsec.CryptoLayout` | platform/linux-generic/odp_crypto.c:713-793 | the encoding operation enciphers the payload part in place and then authenticates the ciphertext with header and AH |
| `Ipsec.EncodeLayout` | example/ipsec/odp_ipsec.c:947-991 | after the sequence stage the packet is authenticated over exactly its immutable header, AH with zero ICV, ESP header and ciphertext |
| `Ipsec.FinishLayout` | example/ipsec/odp_ipsec.c:1001-1026 | the finish stage puts the mutable header fields back without touching what was authenticated |
| `Ipsec.SendIsProtected` | example/ipsec/odp_ipsec.c:804-1026 | the in-place writes of all sending stages leave exactly the protected packet: Section 3.1.1 of RFC 4303 inside Section 3.1.1 of RFC 4302 |
| `IpsecWire.ProtectedFormat` | example/ipsec/odp_ipsec.c:804-1026 | byte by byte, for every packet, configuration and algorithm: protocol 51 or 50, length of the whole packet, all other header fields as they were; AH with next header, length in words less two, SPI, sequence number and as ICV the MAC of the packet with mutable fields and ICV zero; ESP with SPI, sequence number and IV; ciphertext of payload, least padding, pad length and protocol |
| `IpsecWire.TakenIff` | example/ipsec/odp_ipsec_cache.c:177-202 | a packet that arrived is for an entry if and only if the entry has every header the packet carries, with the same SPI |
| `IpsecWire.AuthenticIff` | platform/linux-generic/odp_crypto.c:105-135 | a received packet is authentic if and only if its ICV is the MAC of the packet with mutable fields and ICV zero |
| `IpsecIn.Found` | example/ipsec/odp_ipsec_misc.h:326-349 | the receiver finds the headers where the sender put them and the entry matches, except when an AH-only packet carries protocol ESP |
| `IpsecIn.SameBytesSigned` | platform/linux-generic/odp_crypto.c:105-140 | the receiver authenticates byte for byte what the sender did, whatever happened to the mutable fields |
| `IpsecIn.Deciphered` | platform/linux-generic/odp_crypto.c:713-793 | deciphering with the carried IV gives back the sender's plaintext |
| `IpsecIn.TailRead` | example/ipsec/odp_ipsec.c:732-751 | protocol and trailer length read from the deciphered tail are those written |
| `IpsecIn.ArrivedDecodes` | example/ipsec/odp_ipsec.c:623-701 | a packet in which only mutable fields changed on the way is authenticated and deciphered |
| `IpsecIn.MovedBack` | example/ipsec/odp_ipsec.c:779-783 | the move towards lower addresses puts the payload behind the IPv4 header intact, although it copies more than the payload |
| `IpsecIn.HeaderBack` | example/ipsec/odp_ipsec.c:771-777 | undoing length and protocol gives the header that was sent, with the mutable fields of the arriving one |
| `IpsecIn.RoundTrip` | example/ipsec/odp_ipsec.c:623-787 | decapsulating a protected packet restores payload, protocol, total length and every other header field, for all payloads, paddings and SAs whose packets survive |
| `IpsecIn.OnlySurvivors` | example/ipsec/odp_ipsec.c:623-787 | the converse: for any other packet (IPv4 payload, or AH-only around ESP) transport decapsulation never gives a packet back |
| `IpsecIn.TakenForEsp` | example/ipsec/odp_ipsec_misc.h:326-349 | an AH-only packet whose payload protocol is ESP is read as AH plus ESP |
| `IpsecIn.SameHeader` | example/ipsec/odp_ipsec.c:771-777 | if nothing changed on the way and the checksum was right, the header is back bit for bit |
| `IpsecPackets.MoveUp` | example/ipsec/odp_ipsec.c:858-858 | the overlapping move up copies the original bytes |
| `IpsecPackets.MoveDown` | example/ipsec/odp_ipsec.c:779-782 | the overlapping move down copies the original bytes |
| `IpsecPackets.AdjustLen` | example/ipsec/odp_ipsec_misc.h:358-361 | only the two length bytes change, modulo 2^16 |
| `IpsecPackets.EncapsulateEsp` | example/ipsec/odp_ipsec.c:847-891 | payload moved up, ESP header in front and trailer behind it; the length to encipher is the least whole number of blocks for payload and trailer, and the pad length byte is what that adds; padding bytes are left as found |
| `IpsecPackets.EncapsulateAh` | example/ipsec/odp_ipsec.c:893-916 | the AH announces the protocol it covers, and the header it is computed over has AH as protocol, cleared mutable fields and the final length |
| `IpsecPackets.OutClassify` | example/ipsec/odp_ipsec.c:804-935 | in-place encapsulation, with the ranges of the crypto request and the header offsets computed from the addresses the code subtracts and equal to the planned layout; the packet grows by what was added or is dropped for lack of tailroom |
| `IpsecPackets.OutSeq` | example/ipsec/odp_ipsec.c:947-991 | each packet takes the next sequence numbers, then is enciphered and authenticated |
| `IpsecPackets.OutFinish` | example/ipsec/odp_ipsec.c:1001-1026 | a failed crypto operation drops the packet unchanged |
| `IpsecPackets.LocateHeaders` | example/ipsec/odp_ipsec_misc.h:326-349 | finds AH and ESP behind the IPv4 header in the order the receiver expects, with their offsets and total length |
| `IpsecPackets.Match` | example/ipsec/odp_ipsec_cache.c:177-202 | an entry matches exactly when every IPsec header the packet carries is configured with that SPI; headers the packet lacks are not compared |
| `IpsecPackets.InClassify` | example/ipsec/odp_ipsec.c:623-701 | a packet without IPsec headers or matching entry is left untouched; for any other the context and request come from the headers found in the packet, and the entry's session authenticates and deciphers what they name |
| `IpsecPackets.LocatedIsExpected` | example/ipsec/odp_ipsec.c:641-690 | for a packet that carries the headers of its entry, the request built from the located headers, with the IV length of the entry added, names exactly its AH, IV and ciphertext |
| `IpsecMismatch.AhTaken` | example/ipsec/odp_ipsec.c:641-653 | an AH-only packet is taken by an entry for AH and ESP, and the IV length is added to its header length |
| `IpsecMismatch.AhAuthenticated` | example/ipsec/odp_ipsec.c:673-699 | it is authenticated, and the cipher runs over nothing |
| `IpsecMismatch.AhLosesPayload` | example/ipsec/odp_ipsec.c:771-783 | it comes out without the first bytes of its payload, as many as the entry's IV has, and with a total length as much too small; right if and only if that is 0 modulo 2^16 |
| `IpsecMismatch.EspUnderBoth` | platform/linux-generic/odp_crypto.c:105-140 | an ESP-only packet under an entry for AH and ESP passes if and only if the frame starts with the MAC of nothing |
| `IpsecPackets.Encode` | platform/linux-generic/odp_crypto.c:713-793 | the ciphertext is authenticated, not the plaintext, and only the two ranges of the request are written |
| `IpsecPackets.Decode` | platform/linux-generic/odp_crypto.c:713-793 | the ICV is taken out, zeroed, compared, and the range deciphered |
| `IpsecPackets.InFinish` | example/ipsec/odp_ipsec.c:711-787 | a failed check drops the packet unchanged; an IPv4 payload is treated as a tunnel packet: outer header and trailer pulled, Ethernet type written, dropped unless the policy admits its addresses; any other packet is restored and shortened by what the sender added |
| `IpsecPackets.PolicyIff` | example/ipsec/odp_ipsec.c:763-766 | on a little-endian processor a tunnel packet with exactly the entry's addresses is admitted if and only if both addresses read the same from both ends |
| `IpsecPackets.Protect` | example/ipsec/odp_ipsec.c:804-1026 | the imperative sending path: a packet not dropped is the protected form of what it was, under the next sequence numbers |
| `IpsecPackets.Unprotect` | example/ipsec/odp_ipsec.c:623-787 | the imperative receiving path: the packet comes out with the payload, header and length it went in with |
| `IpsecPackets.Packet.PushTail` | platform/linux-generic/odp_packet.c:276-286 | tailroom moves into the frame, frame plus tailroom is kept, and too little tailroom changes nothing |
| `IpsecPackets.Packet.PullTail` | platform/linux-generic/odp_packet.c:288-297 | the end of the frame becomes tailroom; a frame that is too short is left alone |
| `IpsecPackets.Packet.PushHead` | platform/linux-generic/odp_packet.c:254-263 | headroom moves into the frame, the frame's end stays, and too little headroom changes nothing |
| `IpsecPackets.Packet.PullHead` | platform/linux-generic/odp_packet.c:265-274 | the start of the frame becomes headroom; a frame that is too short is left alone |
| `IpsecPushHead.PushEspLayout` | apps/ipsec/odp_ipsec.c:560-605 | pushing the headers down instead of the payload up leaves ESP header, payload and trailer contiguous around the unmoved payload |
| `IpsecPushHead.OutFrameBytes` | example/ipsec/odp_ipsec.c:804-935 | the bytes of the frame the payload-moving encapsulation leaves |
| `IpsecPushHead.PushFrameBytes` | apps/ipsec/odp_ipsec.c:511-652 | the bytes of the frame the header-pushing encapsulation leaves |
| `IpsecPushHead.SameFrame` | apps/ipsec/odp_ipsec.c:511-652 | both encapsulations build the same frame: same length and the same bytes, except the padding and ESP sequence bytes that neither has written |
| `IpsecPushHead.PushClassify` | apps/ipsec/odp_ipsec.c:511-652 | the head moves down and the payload stays, the request is computed from the new head, the old payload address and the length read from the moved header, and is the one the other application computes; without headroom the program stops |
| `IpsecPushHead.PushProtect` | apps/ipsec/odp_ipsec.c:511-747 | the imperative sending path of the push-head application: sequence numbers, crypto and header restoration run on that request, and the packet at the new head is the protected form of the datagram |
| `IpsecPushHead.PushIsProtected` | apps/ipsec/odp_ipsec.c:664-747 | the in-place stages after the push-head encapsulation leave the protected datagram |
| `IpsecPushHead.SameDatagram` | apps/ipsec/odp_ipsec.c:511-652 | both applications protect the same header and payload, with as many padding bytes, and without ESP the very same packet |
| `LinkedList.InitHead` | helper/odph_list_internal.h:27-31 | an initialised head is an empty circular list |
| `LinkedList.Add` | helper/odph_list_internal.h:33-46 | the new object comes first, both directions of the circle stay consistent, and only the two neighbours and the object are written |
| `LinkedList.Del` | helper/odph_list_internal.h:54-65 | the object leaves the circle and points to itself; the others keep their order |
| `LinkedList.Search` | helper/odph_list_internal.h:75-78 | the walk finds the first object with the key, or there is none |
| `HashTable.ComputeHash` | helper/hashtable.c:167-179 | the hash is the first byte of the key as a signed number, times 1 + 131 + ... + 131^(n - 1) for a key of n bytes, modulo 2^16 |
| `HashTable.SameBucket` | helper/hashtable.c:167-179 | keys of one size that start with the same byte share a bucket whatever else they hold |
| `HashTable.InitHeads` | helper/hashtable.c:118-122 | every bucket becomes an empty circle |
| `HashTable.Create` | helper/hashtable.c:95-126 | on zeroed memory the heads are initialised and the new table is valid and stands for the empty map |
| `HashTable.Table.constructor` | helper/hashtable.c:95-126 | the new table is the empty map |
| `HashTable.Table.Find` | helper/hashtable.c:237-249 | walking the bucket finds a node exactly when the map has the key |
| `HashTable.Table.Take` | helper/hashtable.c:184-206 | fails exactly when every node of the pool is in some bucket |
| `HashTable.Table.Give` | helper/hashtable.c:211-221 | the node leaves its bucket with cleared links, so that it can be taken again |
| `HashTable.Table.Accounting` | helper/hashtable.c:184-221 | stored keys and free nodes account for the whole pool: no node is leaked or in two lists |
| `HashTable.Table.Put` | helper/hashtable.c:224-268 | the map gains or overwrites the key; it fails, unchanged, exactly for missing arguments or a new key with no node left |
| `HashTable.Table.GetValue` | helper/hashtable.c:271-306 | copies out the value of the map, or fails and leaves the buffer alone |
| `HashTable.Table.RemoveValue` | helper/hashtable.c:309-336 | the map loses the key; an absent key is not an error |
| `HashTable.Table.Replay` | helper/hashtable.c:224-336 | any sequence of calls does to the table what it does to a finite map of bounded size |
| `HashTable.NeverOverfull` | helper/hashtable.c:184-268 | that map never outgrows the pool |
| `Crc32c.StepsXor` | platform/linux-generic/odp_hash.c:404-443 | shifting by any number of bits is linear over exclusive or |
| `Crc32c.TableIsSteps` | platform/linux-generic/odp_hash.c:43-402 | table k holds the remainder of a byte followed by k zero bytes |
| `Crc32c.TableXor` | platform/linux-generic/odp_hash.c:43-402 | tables are linear, so their entries at the powers of two determine the rest |
| `Crc32c.SourceEntries` | platform/linux-generic/odp_hash.c:43-88 | the eight entries of the first table at the powers of two are those of the source |
| `Crc32c.U32IsSteps` | platform/linux-generic/odp_hash.c:408-420 | four lookups are 32 single-bit steps |
| `Crc32c.U64IsSteps` | platform/linux-generic/odp_hash.c:422-443 | eight lookups are 64 single-bit steps |
| `Crc32c.U32IsCrc` | platform/linux-generic/odp_hash.c:408-420 | they agree with the bit-at-a-time CRC32C of the four bytes, lowest address first |
| `Crc32c.U64IsCrc` | platform/linux-generic/odp_hash.c:422-443 | the same for eight bytes |
| `Crc32c.QuadTail` | platform/linux-generic/odp_hash.c:457-467 | the tail of five to seven bytes assembled by shift and or has the words a load of the zero-filled tail has |
| `Crc32c.WordTail` | platform/linux-generic/odp_hash.c:472-479 | likewise for one to three bytes |
| `Crc32c.HashTail` | platform/linux-generic/odp_hash.c:457-484 | the fall-through switch computes the CRC32C of the tail filled up with zero bytes |
| `Crc32c.HashCrc32c` | platform/linux-generic/odp_hash.c:445-487 | for all data and initial values the result is the bit-at-a-time CRC32C of the data followed by zero bytes up to a multiple of four |
| `Crc32c.PlainCrcIff` | platform/linux-generic/odp_hash.c:457-486 | it is the CRC32C of the data alone if and only if the length is a multiple of four or that CRC is one of the two values zero bytes do not change |
| `Crc32c.ZeroBytesShow` | platform/linux-generic/odp_hash.c:457-486 | one to three zero bytes leave exactly two CRC values unchanged |
| `Crc32c.PaddingShows` | platform/linux-generic/odp_hash.c:457-486 | a one-byte input whose result is not its CRC32C |
| `Barrier.RunKeeps` | platform/linux-generic/odp_barrier.c:31-50 | counter, rounds and arrivals agree in every state of every run |
| `Barrier.NoEarlyExit` | platform/linux-generic/odp_barrier.c:31-50 | over any number of rounds nobody leaves the r-th wait before everybody has entered it, and nobody is a whole round ahead |
| `Barrier.CounterBounded` | platform/linux-generic/odp_barrier.c:31-50 | the counter never exceeds twice the count |
| `Barrier.SomeoneCanLeave` | platform/linux-generic/odp_barrier.c:31-50 | when everybody is inside, somebody can leave |
| `Barrier.LeavesIff` | platform/linux-generic/odp_barrier.c:31-50 | a participant that waits can leave if and only if every participant has entered the call it is in and the counter has been wrapped |
| `RwLock.RunKeeps` | platform/linux-generic/odp_rwlock.c:19-68 | counter, owner and recursion counts agree with the outstanding acquisitions in every state of every run |
| `RwLock.CounterMeans` | platform/linux-generic/odp_rwlock.c:19-68 | the counter is the number of read holds, never more than 2^31, or all ones exactly under a writer |
| `RwLock.WriterExcludes` | platform/linux-generic/odp_rwlock_recursive.c:47-70 | a thread with unreleased write acquisitions excludes every other acquisition, and wr_cnt is their number modulo 2^32 |
| `RwLock.ReadDepth` | platform/linux-generic/odp_rwlock_recursive.c:21-44 | a thread's one-byte read count is its number of unreleased read acquisitions if and only if there are fewer than 256, and at any depth it holds the base lock |
| `RwLock.OwnerReadIsSafe` | platform/linux-generic/odp_rwlock_recursive.c:47-59 | the unlocked look at the owner answers "mine" exactly for the thread that holds the lock |
| `RwLock.OutermostReleases` | platform/linux-generic/odp_rwlock_recursive.c:61-70 | an unlock gives up the base lock exactly when it undoes the outermost acquisition |
| `RwLock.FewThreads` | platform/linux-generic/odp_rwlock.c:19-37 | in every run, with fewer than 2^31 threads none of which is nested 256 deep, the read holds are at most as many as the threads, and a reader is kept waiting if and only if there is a writer |
| `RwLockProgress.ReaderGoesOn` | platform/linux-generic/odp_rwlock.c:24-30 | in every run, with fewer than 2^31 threads none nested 256 deep, the load of a reader goes on to the exchange if and only if there is no writer, whatever other readers there are |
| `RwLockProgress.ReaderGetsIn` | platform/linux-generic/odp_rwlock.c:31-36 | the exchange of a reader adds it to the readers exactly if the counter is what it loaded, and there is no writer then |
| `RwLockProgress.ReadCalls` | platform/linux-generic/odp_rwlock_recursive.c:21-32 | a read call goes to the base lock exactly when the one-byte count is 0; any other is acquired at once |
| `RwLockProgress.ReadReleases` | platform/linux-generic/odp_rwlock_recursive.c:34-44 | an unlock gives up one acquisition and goes on to the base lock exactly when the count comes to 0 |
| `RwLockProgress.ReadDropped` | platform/linux-generic/odp_rwlock.c:40-43 | giving up the base lock takes one hold of the thread away |
| `RwLockProgress.WriterGoesOn` | platform/linux-generic/odp_rwlock.c:50-57 | the load of a writer goes on to the exchange if and only if there is neither reader nor writer |
| `RwLockProgress.WriterGetsIn` | platform/linux-generic/odp_rwlock.c:58-63 | its exchange makes it the writer if and only if there still is neither |
| `RwLockProgress.WriteCalls` | platform/linux-generic/odp_rwlock_recursive.c:47-59 | a write call by the writer is acquired at once; any other goes to the base lock |
| `RwLockProgress.WriteEnds` | platform/linux-generic/odp_rwlock_recursive.c:47-70 | the last store of an acquisition leaves one acquisition and its owner, the last store of a release nobody |
| `RwLockProgress.AlwaysEnabled` | platform/linux-generic/odp_rwlock_recursive.c:21-70 | inside the lock functions a thread can always take its next step, and no other; outside it can make every call it may |
| `RwLockProgress.HolderIsBusy` | platform/linux-generic/odp_rwlock_recursive.c:21-70 | whoever holds the base lock has an acquisition or is on the way to or from one |
| `RwLockDepth.TooDeep` | platform/linux-generic/odp_rwlock_recursive.c:47-70 | a run that nests 2^32 + 1 write acquisitions, releases one, and lets a second thread in while 2^32 of the first are outstanding |
| `RecursiveSpinLock.RunKeeps` | platform/linux-generic/odp_spinlock_recursive.c:19-60 | flag, owner and count agree with the outstanding acquisitions in every state of every run |
| `RecursiveSpinLock.Exclusive` | platform/linux-generic/odp_spinlock_recursive.c:19-60 | only one thread has unreleased acquisitions, and the count is their number |
| `RecursiveSpinLock.OwnerReadIsSafe` | platform/linux-generic/odp_spinlock_recursive.c:19-49 | the unlocked look at the owner never admits a second owner |
| `RecursiveSpinLock.FlagMeans` | platform/linux-generic/odp_spinlock.c:18-39 | while the flag is clear nobody has the lock |
| `RecursiveSpinLock.Takes` | platform/linux-generic/odp_spinlock_recursive.c:19-49 | a test-and-set gets the flag if and only if nobody has it; otherwise lock tries again and trylock gives up |
| `RecursiveSpinLock.Calls` | platform/linux-generic/odp_spinlock_recursive.c:19-49 | a call by the holder is one more acquisition at once; any other goes for the flag |
| `RecursiveSpinLock.Ends` | platform/linux-generic/odp_spinlock_recursive.c:19-60 | an unlock gives up one acquisition, and the lock exactly with the last; a finished acquisition leaves one, a finished release nobody |
| `RecursiveSpinLock.AlwaysEnabled` | platform/linux-generic/odp_spinlock_recursive.c:19-60 | inside the lock functions a thread can always take its next step, and no other |
| `RxRing.RxQueue.PassUpTo` | mppapcie_odp/odp_rx.c:172-214 | one loop passes slots in order up to its limit or to the first that cannot be started, noting lengths and marking error packets |
| `RxRing.RxQueue.PassToTail` | mppapcie_odp/odp_rx.c:162-221 | both loops together go round the end of the ring and stop at the tail |
| `RxRing.RxQueue.StartRx` | mppapcie_odp/odp_rx.c:151-227 | every descriptor the device offered is passed exactly once, in order, up to the first that cannot be started, which the next call tries again; what its descriptor said is noted and what was noted for the ones in flight stays; the result is the number in flight |
| `RxRing.RxQueue.CleanRx` | mppapcie_odp/odp_rx.c:40-99 | passed descriptors are retired in order, once each, up to the budget or the first incomplete one, and the device is told the new head; the kernel gets each with the length noted when it was passed, except error packets and packets of length 0 |
| `RxRing.RxQueue.Poll` | mppapcie_odp/odp.c:69-75 | over the whole life of the queue the kernel has got the good packets of the retired descriptors, each once, in order and with its own length, however many the device offers in between, up to what the head it is told allows |
| `RxRing.InFlight` | mppapcie_odp/odp_rx.c:225-226 | from the two ring indices alone, the number of descriptors passed and not yet retired, wherever in the endless sequence of descriptors the ring is |
| `SegmentedPacket.Packet.Map` | platform/linux-generic/include/odp_buffer_inlines.h:120-142 | a frame offset is mapped to its segment and offset, with the longest run of frame bytes there: to the end of the segment or of the frame |
| `SegmentedPacket.ChunkView` | platform/linux-generic/include/odp_buffer_inlines.h:120-142 | bytes of one segment are the same bytes of flat memory |
| `SegmentedPacket.PassesIff` | platform/linux-generic/odp_packet.c:756-758 | the 32-bit range test lets through exactly the ranges within the frame and those that come round to within it |
| `SegmentedPacket.PassesWrongly` | platform/linux-generic/odp_packet.c:631-632 | a range outside every frame that passes |
| `SegmentedPacket.CopyEndsIff` | platform/linux-generic/odp_packet.c:634-641 | the copy loop between a packet and a buffer ends if and only if the range lies within the frame: on any other it reaches the end of the frame, maps nothing, and goes on for ever |
| `SegmentedPacket.CopyBothEndsIff` | platform/linux-generic/odp_packet.c:760-772 | the copy loop between two packets ends if and only if the ranges lie within both frames |
| `SegmentedPacket.CopyToPacket` | platform/linux-generic/odp_packet.c:745-775 | for any two segmentations, on ranges on which it ends, it is a flat copy: exactly the range changes, headroom and tailroom included; a range that fails the test of either frame is refused |
| `SegmentedPacket.CopyDataIn` | platform/linux-generic/odp_packet.c:646-668 | a flat write, or refused; headroom and tailroom stay |
| `SegmentedPacket.CopyDataOut` | platform/linux-generic/odp_packet.c:622-644 | a flat read, or refused, for any segmentation |
| `SegmentedPacket.AddData` | platform/linux-generic/odp_packet.c:529-556 | the new frame is the old one with a hole at the offset; when the new length comes round in 32 bits, it is the old one without the bytes before the offset that the second copy covers, or refused |
| `SegmentedPacket.AddEndsIff` | platform/linux-generic/odp_packet.c:541-549 | the one family of calls left out is that on which the second copy does not end |
| `SegmentedPacket.RemData` | platform/linux-generic/odp_packet.c:558-585 | the new frame is what is before the offset and what is behind the range as 32 bits compute its end, except that removing everything gives a frame as long as the pool's buffers; refused exactly for an offset or range that fails the test, no memory, or a range that comes round and is no longer than the frame |
| `SegmentedPacket.RemEndsIff` | platform/linux-generic/odp_packet.c:570-578 | the one family of calls left out is that on which the second copy does not end |
| `SegmentedPacket.RemovesIff` | platform/linux-generic/odp_packet.c:565-566 | that is the frame without the range if and only if the range does not come round; when it does and is not refused, the frame grows |
| `SegmentedPacket.AddThenRemove` | platform/linux-generic/odp_packet.c:529-585 | adding and then removing the same range gives back the frame, on real packets of any segmentation, unless an allocation or the offset fails; an empty frame becomes one as long as the pool's buffers |
| `CpuMask.First` | platform/linux-generic/odp_cpumask.c:185-193 | the least CPU of the mask, or -1 if there is none |
| `CpuMask.Last` | platform/linux-generic/odp_cpumask.c:195-203 | the greatest CPU of the mask, or -1 if there is none |
| `CpuMask.Next` | platform/linux-generic/odp_cpumask.c:205-211 | the least CPU of the mask above the given one, or -1 if there is none |
| `CpuMask.ToStr` | platform/linux-generic/odp_cpumask.c:68-121 | the text is 0x and, in base 16 and without leading zeros, the sum of 2^c over the CPUs c of the mask; it fails exactly when the buffer is too small |
| `CpuMask.WriteDigits` | platform/linux-generic/odp_cpumask.c:94-116 | the digits the loop writes from the highest CPU down denote the sum of 2^c over the CPUs |
| `CpuMask.FromStr` | platform/linux-generic/odp_cpumask.c:23-66 | CPU c is in the mask if and only if bit c is set in the number the digits denote in base 16, after two characters are dropped whenever the second is x or X and the text is cut to its last 256 digits; empty if one of these is not hexadecimal |
| `CpuMask.ParseText` | platform/linux-generic/odp_cpumask.c:23-66 | the digits of a mask parse to that mask |
| `CpuMask.RoundTrip` | platform/linux-generic/odp_cpumask.c:23-121 | whatever is written for a mask is read back as that mask, and a buffer for the longest text always suffices |
| `CpuMask.TopDigit` | platform/linux-generic/odp_cpumask.c:87-88 | the first digit of a non-empty mask is not 0 |

## Left out

- Ordered queues: reorder lists, ordered enqueue, release of order and ordered locks; queues in the model are parallel or atomic.
- Weak memory: steps are sequentially consistent, fences and spin time are not modelled; the loops that spin are steps that are not enabled.
- Rings: name list, dump, bursts of 0 objects in the concurrent model, and use of a ring of size 0.
- RingProtocol.RunKeeps: a thread that pauses between reading a counter and its exchange while 2^32 objects go by is excluded; RingLap.LapDefeatsTheExchange shows that the exclusion is needed.
- RingProgress.EnqueueOutcome: fewer than 2^32 objects go by between the thread's reads of the counters and its next step, as for RingProtocol.RunKeeps.
- RingProgress.DequeueOutcome: likewise.
- RingProgress.EnqueueFailureJustified: fewer than 2^32 objects are released between the thread's two reads; otherwise the free entries it computes in 32 bits are not those that were there.
- RingProgress.DequeueFailureJustified: likewise for objects published.
- RingProgress.SomeoneProceeds: the same bound for every thread; it says that a step is enabled, not that it is taken.
- RingBuffer.Ring.SpEnqueue: sequential, so the consumer counter it reads is current; the concurrent case is in RingProtocol with the single-producer flag.
- SchedulerRuns.RunKeeps: queues are used only after their creation returned the handle; SchedulerCreation says what an early use does to the invariant.
- Queues: names, lookup and contexts are plain fields; polling a scheduled queue from the application is excluded; packet-output queues are left out.
- Scheduler: pause and resume, group membership (a thread may find itself not eligible at any time), timeouts of the wait loop, and termination are left out; packet polling enqueues arbitrary events.
- SchedulerCreation.StrandedForever: the thread that has to wake a queue without a command is taken to stop there; in the source it goes on to enqueue an invalid event on an entry outside the queue table (odp_schedule.c, lines 858-861), about which nothing is said.
- SchedulerSearch.Search: what each look and visit finds, with other threads at work, is a parameter; SchedulerProgress.Sweep runs the same loops over the scheduler state for a thread that is not disturbed.
- SchedulerProgress.ScheduleWait: the interfaces polled during the wait bring no packets, and scheduling is not paused.
- QueueLocks.SomeoneProceeds: says that a step is enabled, not that it is taken; ticket order of the locks is not modelled.
- IPsec: tunnel mode on the sending side (outer header, identification), IPv4 options, the real ciphers, MACs and checksum, asynchronous completion, output to another packet, and configuration parsing.
- IpsecIn.RoundTrip: total length after encapsulation fits 16 bits, ICV lengths are multiples of 4 and cipher blocks at most 256 bytes, which the AH length and ESP pad length fields need.
- IpsecPackets.InClassify: one entry for the address pair; the lengths in the packet's headers keep the crypto request within the buffer, which the program does not check.
- IpsecPackets.OutClassify: the buffer behind the datagram can hold the encapsulation before the tailroom test is made, because the program writes first and tests afterwards.
- IpsecPackets.InFinish: the moved range, or the inner headers of a tunnel packet, lie in the buffer; the processor is little-endian.
- IpsecPackets.Unprotect: the frame is at least as long as what the sender added.
- Hash table: the layout of the memory block, name lookup, destroy, and concurrent use (bucket locks; the node pool is scanned without one).
- HashTable.ComputeHash: plain `char` is taken to be signed; a key size of 0 is not modelled.
- HashTable.Create: how many nodes fit the capacity is not modelled.
- Crc32c.TableIsSteps: the tables are defined from the polynomial of Section 12.1 of RFC 3720; of the 2048 literals of the source eight are compared with them (Crc32c.SourceEntries).
- Barrier.RunKeeps: twice the count fits 32 bits, and as many threads as the count take part.
- RwLock.RunKeeps: at most 2^32 nested write acquisitions by a thread; RwLockDepth.TooDeep shows that the bound is needed.
- RecursiveSpinLock.RunKeeps: at most 2^32 nested acquisitions by a thread, for the reason RwLockDepth.TooDeep shows; at exactly 2^32 the count reads 0.
- RxRing: allocation of socket buffers, DMA set-up and the interrupt side; the device leaves one descriptor free before the head it reads.
- SegmentedPacket.CopyToPacket: source and target packets share no segment; a range that passes the test lies within both frames, because on any other the copy does not end (SegmentedPacket.CopyBothEndsIff).
- SegmentedPacket.CopyDataIn: a range that passes the test lies within the frame, for the same reason.
- SegmentedPacket.CopyDataOut: likewise.
- SegmentedPacket.AddData: calls on which the copy does not end are excluded (SegmentedPacket.AddEndsIff); packet metadata and the freeing of the old packet are left out.
- SegmentedPacket.RemData: calls on which the copy does not end are excluded (SegmentedPacket.RemEndsIff); metadata and freeing are left out.
- SegmentedPacket.AddThenRemove: the length with the addition fits 32 bits; otherwise nothing is added (SegmentedPacket.AddData).
- CpuMask: the set operations, which are those of the C library.
- Timers, shared memory, pools, packet parsing, classification, the Ethernet and NoC drivers, and the firmware of the cluster side.
