# Verified model of a user-space packet runtime

This project models the parts of an AF_XDP packet runtime on which its data
depends, and proves what they promise:

* **the ring** (`src/llring.h`): a lock-free multi-producer/multi-consumer ring
  with four free-running 32-bit indices;
* **the frame loop** (`src/heart.c`, initial fill in `src/sockets.c`): packet
  frames that circulate between user and kernel over four shared rings;
* **the message channel** (`src/vchannel.c`): messages over two rings with a
  round-robin pool of cells;
* **the map table** (`src/map.c`): where the maps found in the kernel are placed,
  and which of them lookup by name finds.

`dafny verify dfyconfig.toml` checks everything.

## How the files fit together

| file | content |
|---|---|
| `Words.dfy` | 32-bit wrap-around, masks, powers of two |
| `RingSpec.dfy` | behaviours, return codes, slots of a ring |
| `Mpmc.dfy` | the ring as a step machine: one step is one shared-memory access of one thread; a flag makes every index 32-bit; without it a stale reader may see too low a count |
| `MpmcInv.dfy` | the invariant, kept by every step |
| `MpmcTheorems.dfy` | tiling, slot race freedom, first-in-first-out exactly once, honest refusals |
| `Mpmc32.dfy` | the 32-bit machine, single and multi forms mixed, refines the unbounded one; exactly when a stale count is wrong and when a stale compare-and-set would succeed |
| `MpmcProgress.dfy` | progress of the publish wait; the bound on failed compare-and-sets |
| `MpmcSingle.dfy` | single-producer and single-consumer forms refine the multi forms |
| `MpmcSolo.dfy` | a call the step machine runs alone keeps the promise of the object's method |
| `MpmcProgram.dfy` | slot race freedom, delivery and the failure bound for the program's own runs: 32-bit indices, mixed forms |
| `MpmcCalls.dfy` | whole calls, from begin to return through lost compare-and-sets: each keeps its request and answers it as of one instant |
| `MpmcQueue.dfy` | one single-form producer and one single-form consumer on the 32-bit ring are a bounded FIFO queue |
| `RingCells.dfy`, `Llring.dfy` | the ring as an object over an array, with the unrolled copy loops |
| `XskRings.dfy`, `Xsk.dfy` | the libbpf rings, frame conservation, and the calls of the frame loop with the kernel as an adversary |
| `Channel.dfy`, `ChannelCapacity.dfy`, `ChannelRing.dfy`, `SharedChannel.dfy` | the channel as a value, with the steps of sends and receives interleaved, how long a waiting message is safe, what its rings are, and the object over two rings |
| `MapSystem.dfy` | the five arrays, placement with relocation, lookup |

## What is assumed

* Shared memory is sequentially consistent and each thread runs in program order.
* A ring has a power of two of slots, at most 2^31, and every request to the
  step machine is for at least one entry: with zero, two calls could reserve from
  the same start. (The object's methods accept zero.)
* For the 32-bit refinement, between a thread's read of a head and its
  compare-and-set that head moves by less than 2^32 positions
  (`Mpmc32.CasWindow`). Nothing is assumed of the reads in between: a count
  taken against a head so old that the true count no longer fits 32 bits is too
  low (`Mpmc32.StaleRead` says exactly when), and then the call may refuse without
  need (`Mpmc32.NeedlessRefusal`) or loses its compare-and-set, which the unbounded
  machine does in a `StaleTurn`. The window is what the compare-and-set needs (`Mpmc32.StaleCas`).
* A single-producer (single-consumer) call is the only call on its side
  while it runs (`MpmcSingle.Alone`).
* On the channel a send (`vc_tx_msg`) is two steps, the writing of its cell and the
  enqueue; a receive (`vc_rx_msg`) is three, the dequeue, the copy and the clearing.
  Anything may happen in between, except a second send: the cursor is unguarded
  and one process sends at a time. Each of the five is atomic; for the enqueue and the
  dequeue that is what `MpmcQueue.PipeIsQueue` and `ChannelRing` say of the ring.
* In the map table, no more matches of requests and listed maps than slots: more
  would send the cursor past the arrays. Requests with distinct names and maps
  with distinct names always keep to it (`MapSystem.FewMatches`).
* A packet program may give any verdict and any length, and may move the start
  of the packet within its frame. It is a function of the round, the place in the
  batch and the descriptor, so it may keep any state between packets.
* The kernel moves one frame at a time, whenever it likes, from the fill ring to
  itself, to the receive ring, from the transmit ring to itself, or to the
  completion ring, if the target has room; it delivers a packet in the frame it took.

## Findings

* The watermark. The return value for "quota exceeded" is documented as reporting
  that the mark is exceeded; the code reports it as soon as the ring holds as
  many entries as the mark (`LlringObject.WatermarkMeaning`). With the default
  mark, equal to the slot count, it never reports.
* The failure branches of `drop` and `complete_tx` would strand frames if they ran.
  They cannot: the fill ring has room for every circulating frame.
* A receive on the channel returns its own message exactly when, at its copy, fewer than
  2 * slots attempts followed the message's own, the refused ones included, and
  no other receive cleared the cell since it was written
  (`Channel.IntactExactly`). The second half matters: a receive that
  comes too late clears the cell under a newer message, which is then lost
  however soon it is received (`Channel.LateClearSpoils`).
* If every message is cleared before 2 * slots further sends have written their
  cells, both directions deliver all they accepted (`Channel.Delivery`).
* From the size of the rings, in one-way traffic: slots refusals while a message
  waits are harmless, also with a send under way, which has written its cell and
  not yet asked the ring (`ChannelCapacity.KeptOneWay`). slots + 1 are harmless
  only if none is under way; with one, the message is lost, and so is the one of
  the send under way, which is accepted (`ChannelCapacity.RefusalBoundIsSharp`). If the
  message's ring fills up again while it is being copied, all that is one less
  (`ChannelCapacity.SlackIsSharp`).
* Lookup by name misses maps placed beyond a hole. It finds every placed map
  exactly when every explicit slot asked for by a found map is below the number
  of maps found, for requests and maps with distinct names
  (`MapSystem.LookupComplete`, `MapSystem.LoneRequestMissed`).

## Model

| member | source | states |
|---|---|---|
| Mpmc.Step | src/llring.h:456-515 | one shared access of one thread keeps the well-formedness of every call's locals; what the accesses of one call amount to is stated by the MpmcCalls members |
| MpmcCalls.CallsAnswer | src/llring.h:444-515 | in every run, single and multi forms mixed, each call keeps the request it began with through every retry, and once returned took and returned what a lone call would have at the instant of its last read of the opposite tail, unless it refused on a stale turn's count |
| MpmcCalls.CallsAnswer32 | src/llring.h:623-684 | the same for every run of the program on 32-bit indices, unless it refused on a count that no longer fit 32 bits |
| MpmcCalls.ReturnStep | src/llring.h:470-515 | on both machines and sides a call returns by its own step: by publishing what it reserved, or, with nothing, by its read of the opposite tail |
| MpmcCalls.LostCas | src/llring.h:457-488 | on both machines and sides a lost compare-and-set leaves the ring as it is and the call going on with its whole request: its next two accesses read head and opposite tail again |
| MpmcCalls.RefusedOnTheSpot | src/llring.h:469-480 | a call that returns empty-handed does so at that very read, and the request it began with did not fit at that instant |
| MpmcCalls.RefusedOnTheSpot32 | src/llring.h:649-658 | the same for the program's runs, unless the count no longer fit 32 bits |
| MpmcInv.StepInv | src/llring.h:456-514 | every step of every multi-form call keeps the invariant on indices, reservations, slots and deliveries |
| MpmcInv.Safety | src/llring.h:636-683 | every state of every run, any number of threads, satisfies the invariant |
| MpmcTheorems.Tiling | src/llring.h:456-514 | cons.tail <= cons.head <= prod.tail <= prod.head <= cons.tail + slots - 1, and each position of the two gaps is held by exactly one call in flight, no other position by any |
| MpmcTheorems.SlotRaceFree | src/llring.h:355-383 | the slot a copying producer writes is not a slot another producer writes, a consumer reads, or that holds an unreleased entry |
| MpmcTheorems.Fifo | src/llring.h:444-515 | the batches dequeues returned concatenate, in reservation order, to a prefix of the batches enqueued in compare-and-set order, of length cons.tail |
| MpmcTheorems.ProducerLogsItsItems | src/llring.h:485-491 | the positions a producer reserved carry its own first n items |
| MpmcTheorems.ConsumerGetsItsItems | src/llring.h:664-683 | a returning dequeue hands out exactly the items logged for its reservation, next in order |
| MpmcTheorems.EnqueueRefusalHonest | src/llring.h:461-480 | a turn that ends an enqueue other than by publishing reads cons.tail, and the request did not fit at that instant, even though the head may be stale |
| MpmcTheorems.DequeueRefusalHonest | src/llring.h:641-658 | the same for a refused dequeue and prod.tail |
| MpmcTheorems.EnqueueTakesSnapshot | src/llring.h:461-487 | whatever others do in between, a winning enqueue takes the minimum of its request and the space free at the read |
| MpmcTheorems.DequeueTakesSnapshot | src/llring.h:641-666 | the same for a winning dequeue |
| Mpmc32.DifferencesExact | src/llring.h:463-467 | the 32-bit counts agree with the true ones unless those no longer fit, and all index comparisons agree |
| Mpmc32.StaleTurn32 | src/llring.h:461-483 | a count taken against too old a head is too low, and the call goes on as a stale turn of the unbounded machine |
| Mpmc32.Step32 | src/llring.h:215-222 | one event of the program, single or multi form, is one event of the unbounded machine, up to wrapping the state to 32 bits |
| Mpmc32.Refines | src/llring.h:215-222 | from the initial ring, through any number of wrap-arounds, with single and multi forms mixed within their contract, the 32-bit machine does what the unbounded one does |
| Mpmc32.MultiKeepsContract | src/llring.h:456-514 | schedules of multi forms keep the callers' contract by themselves |
| Mpmc32.Fifo32 | src/llring.h:444-515 | the 32-bit machine, single and multi forms, delivers a prefix of what was enqueued, in order, fewer than slots items behind |
| Mpmc32.StaleCas | src/llring.h:485-488 | a stale 32-bit compare-and-set succeeds wrongly exactly when the head moved by a positive multiple of 2^32 |
| Mpmc32.StaleRead | src/llring.h:463-467 | against a stale head the 32-bit free count is true exactly while the true count fits 32 bits |
| Mpmc32.Refusal32Honest | src/llring.h:461-480 | a 32-bit turn that ends an enqueue other than by publishing reads cons.tail, and the request did not fit at that instant, unless its count no longer fit 32 bits |
| Mpmc32.DeqRefusal32Honest | src/llring.h:641-658 | the same for a dequeue and prod.tail |
| Mpmc32.NeedlessRefusal | src/llring.h:463-480 | a state the invariant allows in which an enqueue slept so long that its count wraps to zero and it refuses, though the ring is empty |
| Mpmc32.EnqueueWinnerSawTruth | src/llring.h:461-488 | an enqueue of the 32-bit machine whose compare-and-set succeeds had seen the true head and free count, and takes the minimum of count and request |
| Mpmc32.DequeueWinnerSawTruth | src/llring.h:641-667 | the same for a dequeue and the entry count |
| RingSpec.WrappedSlot | src/llring.h:215-222 | a wrapped index and the position it stands for name the same slot |
| RingSpec.EnqCodes | src/llring.h:494-504 | no return code of an enqueue that stored entries is that of a refusal; a fixed refusal is -1 and a fixed quota code -2; a variable count is in the low 31 bits |
| RingSpec.DeqCodes | src/llring.h:649-684 | no return code of a dequeue that took entries is that of a refusal; a fixed refusal is -3 |
| RingSpec.DistinctCells | src/llring.h:225-232 | positions less than a ring apart never share a slot |
| MpmcProgress.FrontUnique | src/llring.h:506-513 | while reservations are unpublished exactly one starts at the tail, on each side |
| MpmcProgress.PublishInOrder | src/llring.h:510-513 | only the owner of the oldest unpublished reservation stores prod.tail |
| MpmcProgress.EffectiveTurns | src/llring.h:673-681 | with no arrivals each turn that is not an idle spin lowers the work left by one, in any order |
| MpmcProgress.AllPublish | src/llring.h:506-513 | with no arrivals, no schedule has more effective turns than there is work, and every reservation on both sides is published exactly when it has as many |
| MpmcProgress.Drain | src/llring.h:506-513 | such a schedule always exists |
| MpmcProgress.CasFailureBound | src/llring.h:457-488 | k calls on a side, enqueues or dequeues, fail at most k(k-1)/2 compare-and-sets in all, in any schedule |
| MpmcProgress.FailureMeansProgress | src/llring.h:637-667 | a failed compare-and-set on either head means another one succeeded since that head was read |
| MpmcSingle.SingleRefinesMulti | src/llring.h:540-595 | every run with single-form calls is a run of the multi forms: same memory, history, statistics, return codes |
| MpmcSingle.SingleFifo | src/llring.h:710-751 | so the delivery promise holds for single forms too |
| MpmcSingle.SingleNeverHindered | src/llring.h:574-593 | in every run within the contract a single-form call, enqueue or dequeue, stores a head its compare-and-set would have won and a tail it would not have waited for |
| MpmcProgram.SlotRaceFree32 | src/llring.h:355-383 | on 32-bit indices, mixed forms: the slot a copying producer writes is in no other producer's reservation, in no consumer's, and holds no published entry |
| MpmcProgram.NextBatch32 | src/llring.h:664-683 | the batch a dequeue of the program is about to return is the next piece of what was enqueued |
| MpmcProgram.CasFailureBound32 | src/llring.h:457-488 | k calls of the program on a side lose at most k(k-1)/2 compare-and-sets in all |
| MpmcQueue.StepIsQueue | src/llring.h:540-595 | each step of a lone single-form producer or consumer is a step of the queue: a put where prod.tail is stored, a get where cons.tail is stored, a refusal where the other tail is read |
| MpmcQueue.PipeIsQueue | src/llring.h:540-751 | in every schedule of single-form calls within their contract the effects, in order, are a run of a FIFO queue of slots - 1 entries, and the ring holds what that queue holds |
| MpmcQueue.RingHolds | src/llring.h:215-222 | the published entries are what the 32-bit ring holds between its tails |
| MpmcSolo.SoloEnqueue | src/llring.h:540-595 | an enqueue run alone on 32-bit indices appends what fits and returns the codes the object's method promises |
| MpmcSolo.SoloDequeue | src/llring.h:710-751 | a dequeue run alone removes and hands out the oldest entries and returns the promised codes |
| RingCells.StoredAt | src/llring.h:355-383 | the simple store loop puts objs[i] in the i-th slot of the batch and changes no other slot |
| RingCells.StoreAppends | src/llring.h:355-383 | storing behind the entries in use appends to them, also around the end and across the 32-bit wrap |
| RingCells.DropOldest | src/llring.h:741-749 | advancing cons.tail by k removes the k oldest entries |
| RingCells.StoreLoad | src/llring.h:388-416 | loading a batch from where it was stored gives it back, at any index |
| RingCells.MaskedCounts | src/llring.h:1030-1050 | the masked differences count the entries in use and the free ones |
| LlringObject.Llring.Init | src/llring.h:295-319 | an error exactly when the slot count is neither a power of two nor zero; an empty ring for a power of two |
| LlringObject.Llring.SetWaterMark | src/llring.h:339-350 | refuses marks from the slot count up, zero switches marking off, entries untouched |
| LlringObject.Llring.EnqueuePtrs | src/llring.h:355-383 | both branches of the macro equal the simple loop over the masked indices and change no other slot |
| LlringObject.Llring.StoreUnrolled | src/llring.h:359-376 | four at a time plus the falling-through switch lays out exactly n items |
| LlringObject.Llring.StoreAround | src/llring.h:377-382 | the two loops lay the items out around the end |
| LlringObject.Llring.DequeuePtrs | src/llring.h:388-416 | both branches load exactly the n entries from the index on, and leave the rest of the buffer |
| LlringObject.Llring.SpDoEnqueue | src/llring.h:540-595 | appends what fits, all or nothing when fixed, and returns refusal, quota or count exactly as documented |
| LlringObject.Llring.ScDoDequeue | src/llring.h:710-751 | removes and hands out the oldest entries, all or nothing when fixed |
| LlringObject.Llring.Full | src/llring.h:999-1004 | one exactly when slots - 1 entries are in use |
| LlringObject.Llring.Empty | src/llring.h:1015-1020 | one exactly when no entry is in use |
| LlringObject.Llring.Count | src/llring.h:1030-1035 | the number of entries |
| LlringObject.Llring.FreeCount | src/llring.h:1045-1050 | the number of entries that still fit |
| LlringObject.WatermarkMeaning | src/llring.h:494-504 | the quota return appears exactly when the entries afterwards reach the mark; never with the default mark |
| XskRings.HopConserves | src/heart.c:183-190 | no move of a frame between two places loses or doubles any frame |
| XskRings.AllOnFill | src/sockets.c:95-99 | the initial fill has every frame in one place |
| XskRings.ExactlyOnePlace | src/sockets.c:67-99 | conservation means: each frame in exactly one of the six places, once |
| XskRings.ExtractInUmem | src/heart.c:185-186 | masking a descriptor address to 48 bits changes no address inside the packet memory |
| Xsk.XskSocket.constructor | src/sockets.c:67-99 | after the initial fill the invariant holds and outstanding_tx is zero |
| Xsk.XskSocket.FillHasRoom | src/sockets.c:67-99 | frames in the user's hands always fit the fill ring |
| Xsk.XskSocket.ReserveFill | src/heart.c:173-181 | a fill-ring reservation for frames in hand never fails, whatever the kernel does first |
| Xsk.XskSocket.Drop | src/heart.c:167-192 | returns cnt always; exactly the batch's addresses go to the fill ring in order and exactly cnt entries are released |
| Xsk.XskSocket.Tx | src/heart.c:204-230 | all of the batch goes to the tx ring, in order, outstanding_tx up by cnt, or nothing changes; it succeeds when there was room |
| Xsk.XskSocket.CompleteTx | src/heart.c:51-102 | the oldest completions, as many as wait up to a batch and to outstanding_tx, go to the fill ring in order and are released; outstanding_tx goes down by as many and never underflows |
| Xsk.XskSocket.RefillCompleted | src/heart.c:73-99 | the peeked completions go to the fill ring in order; the retry and the early return are unreachable |
| Xsk.XskSocket.PollRxQueue | src/heart.c:113-155 | the batch is the oldest packets waiting at the peek, the least of their number and the limit, none released; the rest still waits |
| Xsk.XskSocket.ApplyAction | src/heart.c:232-285 | SEND with room queues the packet; every other verdict, known or not, and SEND without room, drops it; one entry is released |
| Xsk.XskSocket.ApplyEach | src/heart.c:474-497 | the batch splits in order between fill and tx ring, released in full: a packet sent goes out at its received address plus trim_head with length pkt_len, one not sent refills at that address; only SENDs are sent, and every SEND that found room |
| Xsk.XskSocket.TrimAndCount | src/heart.c:301-314 | every descriptor is moved by its trim_head and gets its pkt_len, once; the two counts are the sends and the rest |
| Xsk.XskSocket.PlaceBoth | src/heart.c:335-351 | each part is written to its ring in batch order, filling the reservation exactly |
| Xsk.XskSocket.MoveBoth | src/heart.c:301-359 | both parts of the trimmed batch are submitted and released whole, in batch order |
| Xsk.XskSocket.ApplyMixAction | src/heart.c:287-363 | for DROP and SEND verdicts with room: the same fill ring, tx ring, releases and outstanding_tx as trimming and acting packet by packet, each packet at its received address plus trim_head and, if sent, with length pkt_len |
| Xsk.XskSocket.OneRound | src/heart.c:413-497 | one round: the completions waiting, up to a batch and to outstanding_tx, refill first; then the packets waiting, up to a batch, are split by the program's own verdicts, every SEND with room sent, all others dropped, all released |
| Xsk.XskSocket.PumpPackets | src/heart.c:413-516 | any number of such rounds, each starting where the one before ended, for any program; every frame in one place, outstanding_tx exact, and no entry held between rounds |
| Xsk.Totals | src/heart.c:413-516 | over any rounds each packet handled and each completion reclaimed is put on exactly one of the two producer rings |
| Xsk.ProcessedDealt | src/heart.c:489-491 | processing a batch puts each packet behind those of its kind before it, trimmed and resized by its own verdict |
| Xsk.PartAt | src/heart.c:335-351 | within a batch the packets sent, and those not sent, keep their order |
| Xsk.PartsLength | src/heart.c:301-314 | the two parts of a batch together have its length |
| Xsk.ProcessedSnoc | src/heart.c:489-491 | trimming and acting on one more packet extends the processed part by one |
| Channel.Tx | src/vchannel.c:164-205 | one send attempt with nothing in between: it keeps cell numbers, sizes and ring occupancy in bounds |
| Channel.SendIsTx | src/vchannel.c:187-204 | the two halves of a send in a row are that whole call |
| Channel.Rx | src/vchannel.c:207-248 | one receive with nothing in between: the same |
| Channel.WholeIsRx | src/vchannel.c:207-248 | the three steps of a receive in a row are that whole call |
| Channel.StepBase | src/vchannel.c:187-247 | in any run of writes, posts, takes, copies and clearings: rings hold the waiting attempts' cells in order, a recent cell holds its own attempt's payload and is valid until a clearing reaches it |
| Channel.CopiesExactly | src/vchannel.c:213-222 | in any run a copy returns the payload of the latest attempt on its cell, or nothing if the cell was cleared since |
| Channel.IntactExactly | src/vchannel.c:207-248 | a receive returns its own message exactly when no later attempt took the cell and no receive cleared it since |
| Channel.LateClearSpoils | src/vchannel.c:238-239 | five sends on two slots: the clearing of a late receive wipes a message that no attempt followed |
| Channel.StepInv | src/vchannel.c:187-247 | writes, posts accepted or refused, takes, and timely copies and clearings keep: what was received is what was accepted, nothing unreceived or under way is cleared, everything received is |
| Channel.Delivery | src/vchannel.c:187-248 | in both directions, the steps of sends and receives interleaved, if each message is cleared before 2 * slots further sends have written their cells, the stream received is the stream accepted, in order, up to the receiver's length |
| ChannelCapacity.KeptByCapacity | src/vchannel.c:187-202 | a message on the ring is not overwritten while at most slots + 1 attempts go elsewhere, one under way included |
| ChannelCapacity.KeptOneWay | src/vchannel.c:187-202 | in one-way traffic: while refusals, and one for a send under way, are at most slots + 1 |
| ChannelCapacity.KeptInHand | src/vchannel.c:213-239 | nor one being copied or cleared, with one attempt less if its ring filled up again |
| ChannelCapacity.UndividedIsPatient | src/vchannel.c:207-248 | a receive with nothing in between is safe after slots + 1 attempts elsewhere, one under way included |
| ChannelCapacity.PatientDelivery | src/vchannel.c:187-248 | so over whole runs every message taken off the ring arrives intact, if few enough attempts, one under way included, go elsewhere meanwhile |
| ChannelCapacity.OneWayDelivery | src/vchannel.c:187-248 | one-way traffic with few enough refusals from each send to its clearing, one less while a send is under way, delivers every message |
| ChannelCapacity.OverrideExactly | src/vchannel.c:187-192 | in any run a send overrides a valid message exactly when no clearing reached its cell since the attempt one lap earlier |
| ChannelCapacity.TimelyOverride | src/vchannel.c:187-192 | in timely runs that is exactly when that attempt was refused, still waits or is being received |
| ChannelCapacity.OneWayNeverOverrides | src/vchannel.c:187-192 | a one-way run without refusals never overrides a valid message |
| ChannelCapacity.RefusalBoundIsSharp | src/vchannel.c:187-202 | after slots + 1 refusals a send under way overwrites the waiting message: its receive returns the other's payload and clears it, and the send is accepted and lost |
| ChannelCapacity.SlackIsSharp | src/vchannel.c:187-222 | with slots refusals and a send under way while the first message is being received and its ring is full again, its copy returns the other's payload |
| ChannelRing.PostIsPut | src/vchannel.c:200-203 | the post of a send is a put of one on a queue of slots - 1, or its refusal |
| ChannelRing.TakeIsGet | src/vchannel.c:213-214 | the take of a receive is a get of one |
| ChannelRing.RefusedAlike | src/vchannel.c:200-214 | a burst of one is refused by the queue exactly when full, or empty |
| SharedMemory.SharedChannel.Connect | src/vchannel.c:66-100 | the creating branch: fails exactly when the slot count is neither a power of two nor zero; for a power of two an empty channel over any memory |
| SharedMemory.SharedChannel.TxMsg | src/vchannel.c:164-205 | the object's send is Channel.Tx to the other process, 0 or -1 as the ring accepted or not |
| SharedMemory.SharedChannel.RxMsg | src/vchannel.c:207-248 | the object's receive is Channel.Rx: length and bytes returned, rest of the buffer untouched |
| SharedMemory.SharedChannel.CountMsg | src/vchannel.c:250-256 | the number of messages waiting |
| MapSystem.PutNew | src/map.c:104-112 | placing a map in an empty slot keeps: each match in one slot, explicit ones in theirs unless evicted, slots below the cursor filled |
| MapSystem.PutMoved | src/map.c:113-123 | relocating an earlier map and taking its slot keeps the same |
| MapSystem.RoomLeft | src/map.c:104-107 | with fewer matches placed than slots the table has an empty slot, so the cursor stays inside |
| MapSystem.FewMatches | src/map.c:101-103 | with each name listed once there are no more matches than requests |
| MapSystem.ExplicitInPlace | src/map.c:112-123 | with distinct names and slots every explicit request that was found is in its slot |
| MapSystem.MapTable.CopySlot | src/map.c:118-122 | relocation copies all five arrays and nothing else |
| MapSystem.MapTable.PlaceMap | src/map.c:103-153 | one match: skip, relocate if needed, record; fails only without memory; afterwards the five arrays hold for each match so far its map's descriptor, name, value size, buffer and area |
| MapSystem.MapTable.SetupMapSystem | src/map.c:71-163 | for any listing order every match is placed, once, or the call fails: too many requests, or no memory for a matched map; with distinct names, all listed and slots below their number, every request is found; on success the five arrays hold at each match's slot that listed map's descriptor, name, value size, buffer and mapped area, and no other slot is in use |
| MapSystem.LastAsker | src/map.c:112-123 | of the found maps that asked for one slot the last is in it |
| MapSystem.LookupComplete | src/map.c:217-246 | for distinct names, lookup finds every found map at its slot exactly when every explicit slot asked for is below the number found |
| MapSystem.AllRequestsFound | src/map.c:89-156 | k requests, all listed, explicit slots below k: slots 0..k-1 filled, the rest empty, every map found, explicit ones in their slot |
| MapSystem.UnknownName | src/map.c:217-246 | lookup never finds a name that met no request |
| MapSystem.LoneRequestMissed | src/map.c:217-230 | a lone request for slot 5 is placed there, and never found |
| MapSystem.ReachedIsListed | src/map.c:217-230 | with each name listed once, the slot a listed name leads to holds that map, all five entries |
| MapSystem.MapTable.LookUpAfterSetup | src/map.c:71-230 | after a setup lookup of a listed name gives that listed map's own descriptor or 0, and never 0 for a requested map when all requests are listed and slots below their number |
| MapSystem.MapTable.GetMapFd | src/map.c:217-230 | the descriptor of the first slot with the name before any hole, else 0 |
| MapSystem.MapTable.GetMapFdAndIdx | src/map.c:232-246 | the same with the slot, which is set only on success |

## Left out

- Weak memory ordering and the compiler and CPU barriers of the ring: the step machine is sequentially consistent.
- A compare-and-set on a head that moved by a full 2^32: shown to be the break (`Mpmc32.StaleCas`), excluded by assumption elsewhere.
- MpmcTheorems.EnqueueRefusalHonest: says nothing of a refusal on a count that no longer fits 32 bits (a stale turn); such a refusal can be needless.
- MpmcTheorems.DequeueRefusalHonest: the same.
- MpmcCalls.CallsAnswer: of a call that refused on such a count it says only that it kept its request and took nothing.
- MpmcCalls.CallsAnswer32: the same, for a count that no longer fit 32 bits (`Mpmc32.StaleRead`, `Mpmc32.NeedlessRefusal`).
- Requests for zero entries in the step machine, and the use of rings of zero slots.
- The debug statistics of the ring, and the wrappers that pick a form or a behaviour and pass their arguments on.
- The inside of libbpf's rings: a reservation takes all or nothing, a peek takes the minimum, entries are written in reservation order, and the kernel sees entries from submit on.
- Xsk.XskSocket.ApplyMixAction: states nothing for verdicts other than DROP and SEND, or when a reservation fails; the code then still places descriptors and counts sends.
- Xsk.XskSocket.ApplyAction: for PASS, the copy of the packet data to the application is not modelled, only what becomes of the frame.
- Xsk.XskSocket.PumpPackets: runs a bounded number of rounds, for every bound, instead of until termination, and processes each batch packet by packet; the batching build calls ApplyMixAction in its place.
- Unaligned packet memory (offsets in the upper address bits), kicks, wakeups, polling and timing: system calls and reports.
- The packet program itself, its compilation and its helpers: an arbitrary verdict for each round, place in the batch and descriptor.
- Channel.Delivery: takes the writing of a cell, its copy and its clearing as one step each; messages of length zero cannot be told from an empty ring by the receiver's return value, as in the code.
- Sends by both processes at once, which leave the cursor unguarded.
- SharedMemory.SharedChannel.Connect: slot counts from 2^30 up, whose double overflows the int it is computed in (src/vchannel.c:32, 83).
- The attaching branch of the channel, remapping, disconnect and the shared memory calls; the index field a message cell repeats.
- The text of a request (`name:slot`), reading the kernel's list of maps and the arithmetic on mapped areas: the list, the sizes and whether memory and mappings were obtained are inputs.
- MapSystem.MapTable.SetupMapSystem: assumes explicit slots inside the table and no more matches than slots, as the arrays need; promises nothing on the table's content after running out of memory.
- MapSystem.LookupComplete: is for distinct names; of two maps with one name lookup finds the first.
- Interposition of socket calls, logging, configuration, examples and benchmarks.
