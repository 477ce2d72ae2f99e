# NetBricks core, modelled in Dafny

NetBricks is a Rust framework for network functions. This project models the parts of it
whose correctness is hard to see from the code, and proves what those parts are for:

- **The mbuf ring** (`Mpsc*.dfy`): a multi-producer single-consumer ring as a system of atomic
  steps, one per load, store or compare-and-exchange, any number of producers and any schedule.
  Every interleaving keeps reservations disjoint and tiling, delivers first-in first-out and
  can always drain its commits; every call inserts its whole batch or as much as the counters it
  loaded leave room for. A simulation carries all of this over to wrapping 64-bit counters. `MpscQueue` is the same ring as a class with the source's copy loops.
- **Longest prefix match** (`Lpm.dfy`): the two-table (24 + 8 bit) lookup structure. After
  construction, and after any later reconstruction, every address gets the gate of its longest
  matching prefix, whatever order the hash maps are walked in.
- **TCP reassembly** (`RingBuffer.dfy`, `SegmentList.dfy`, `Reassembly*.dfy`,
  `ReorderedBuffer.dfy`): a byte ring that refines a window over an unbounded log, the list of
  out-of-order segments, and the buffer's state machine as a total function that also says when
  the code loops forever or trips its assertion. An insertion goes well if and only if a stated
  guard holds, however many gaps there are; over every trace of such insertions and of reads
  the reader gets the stored bytes, each once and in order.
- **Maglev** (`Maglev.dfy`): the load balancer's table is a permutation-driven, exactly balanced
  assignment; the rows are permutations exactly for prime sizes, and 65537 is proved prime.
- **Packet batches** (`PacketBatch.dfy`, `Pipeline.dfy`): receive, filter, send and release
  cycles conserve packet buffers and keep packets in arrival order.
- **Schedulers** (`SchedulerLog.dfy`, `StandaloneScheduler.dfy`, `EmbeddedScheduler.dfy`): the
  command-driven round-robin loop with nested `Execute`, and the dependency executor.
- **NAT** (`Flows.dfy`, `Nat.dfy`): stamping and extracting flows at byte level, and the
  translation map as an involution over every packet trace.
- `Words.dfy` and `Circular.dfy` hold machine words, bit operations and circular windows.

Where the source updates state in place, the model is a class or a method over an array, proved
against a function on values; the properties of whole runs are lemmas about those functions.
Code that computes values is modelled by functions.

## What turned out to hold only under a condition

- Data at the write position of an out-of-order buffer are handled correctly exactly when they
  reach the end of the last hole below what the segment list claims (list beginning at the read
  position), or end exactly where the first segment starts and nothing it claims is missing.
  Otherwise the call never returns, the is-head assertion fails, or bytes that were never
  received become readable (`Reassembly.FillExactly`). Each of the three is reached from a new
  buffer (`ReassemblyFailures.ShortFillEndless`, `ReassemblyFailures.LongFillNotHead`,
  `ReassemblyFailures.ShortFillExposes`).
- Data past a gap are handled correctly exactly when the list begins at the read position, or
  they start at or behind its first segment, or end where it starts (`Reassembly.AheadExactly`).
  Data that end in front of that segment without touching it, and so open a second gap below the
  first, never return themselves (`ReassemblyFailures.ShortOfFirst`,
  `ReassemblyFailures.InFrontEndless`). Data that overlap the waiting bytes from below are put behind them, and the fill that closes
  the gap then never returns (`ReassemblyGaps.TouchExactly`,
  `ReassemblyFailures.OverlapThenEndless`).
- Data at the write position of an out-of-order buffer are answered `Inserted` even when some did
  not fit; that is right exactly when there was room (`ReassemblyAnswers.FillAnswerExactly`,
  `ReassemblyFailures.FillDropsSilently`). The count returned is the larger of what was stored and
  what became readable beyond it, which is the growth exactly when one of them is zero
  (`ReassemblyAnswers.FillCountExactly`, `ReassemblyFailures.FillMiscounts`).
- A segment past the window is not stored but is noted in the list; no data at the write position
  are handled correctly before the next read, except where the noted length, cut to 16 bits,
  ends inside the window (`ReassemblyFailures.MissedWindow`).
- After data are repeated up to the write position, reads are safe exactly as long as each one
  still finds bytes (`ReassemblyFailures.DuplicateBlocksReads`).
- Moving the ring's tail keeps its window exactly when there is room; past that the free-space
  formula wraps and later writes replace unread bytes (`RingBuffer.SeekTailExactly`,
  `RingBuffer.SeekPastRoomOverwrites`).
- All Maglev rows are permutations exactly when the table size is prime (`Maglev.RowsNeedPrime`).
- Block numbers of the long table survive their 16-bit encoding exactly below 2^15
  (`Lpm.BlockNumbersFit`); a short prefix paints its own range exactly when it is aligned
  (`Lpm.AlignmentNeeded`). Constructing again hands out a second block to exactly the entries that
  a prefix of at most 24 bits covers, with a default route to all of them (`Lpm.RebuildBlocks`).
- Rounding to a power of two is right exactly for 1 to 2^63 and gives 0 otherwise
  (`Words.RoundToPowerOf2`). Its comment calls the result the nearest power; it is the next one.
- Stamping and extracting a flow agree for all flows exactly when the header has one word or at
  least five (`Flows.RoundTripsExactly`).
- A new translation leaves earlier ones alone exactly when its return flow was free
  (`Nat.InsertIsStableExactly`); a flow aimed at the translator itself shows how it is not
  (`Nat.AimingAtTranslator`). The side table is indexed out of range exactly on new flows once
  the port counter reached 64511 (`Nat.PanicsExactly`), which 63487 different flows make happen
  (`Nat.PortsRunOut`).

## Model

| member | source | states |
|---|---|---|
| `Words.RoundToPowerOf2` | framework/src/utils/mod.rs:16-26 | the result is the least power of two at or above the size if and only if 1 <= size <= 2^63; otherwise it is 0 |
| `Words.RoundingValue` | framework/src/utils/mod.rs:16-26 | the same for the composed shifts and ors as a function of the decremented word |
| `Words.RoundingFits` | framework/src/utils/mod.rs:16-26 | sizes up to 2^63 round to the power above their top bit without wrapping |
| `Words.RoundingWraps` | framework/src/utils/mod.rs:16-26 | size 0 and sizes above 2^63 wrap to 0, which is no least power |
| `Words.AndMask` | framework/src/queues/mpsc_mbuf_queue.rs:60 | masking with 2^k - 1 is the remainder by 2^k |
| `Words.PowerTest` | framework/src/queues/mpsc_mbuf_queue.rs:34 | x and x - 1 have no common bit if and only if x is a power of two |
| `Words.WrappedSlot` | framework/src/state/ring_buffer.rs:90 | masking a wrapped 64-bit counter gives the slot of the unbounded counter |
| `Words.WrappedFree` | framework/src/queues/mpsc_mbuf_queue.rs:97-99 | the wrapping free-space formula equals mask + tail - head of the unbounded counters |
| `Words.WrappedDifference` | framework/src/queues/mpsc_mbuf_queue.rs:201 | the wrapping difference equals the true number of entries |
| `Words.SlotsDiffer` | framework/src/queues/mpsc_mbuf_queue.rs:60 | positions less than a ring apart use different slots |
| `Circular.OverlayExtends` | framework/src/queues/mpsc_mbuf_queue.rs:56-75 | writing right behind a circular window extends the window by what was written |
| `Circular.WindowSplits` | framework/src/queues/mpsc_mbuf_queue.rs:175-194 | reading the front of a circular window leaves the rest as the new window |
| `MpscSafety.StepKeeps` | framework/src/queues/mpsc_mbuf_queue.rs:91-212 | every atomic step of any producer or the consumer keeps the ring's invariant |
| `MpscSafety.RunKeeps` | framework/src/queues/mpsc_mbuf_queue.rs:91-212 | so does every finite schedule |
| `MpscSafety.InitOk` | framework/src/queues/mpsc_mbuf_queue.rs:33-47 | a new ring satisfies the invariant |
| `MpscSafety.ReserveKeeps` | framework/src/queues/mpsc_mbuf_queue.rs:124-146 | a successful reservation keeps the invariant, although its counters were loaded earlier |
| `MpscSafety.ReserveFailKeeps` | framework/src/queues/mpsc_mbuf_queue.rs:124-146 | a failed exchange retries, and never happens with a single producer |
| `MpscSafety.StoreKeeps` | framework/src/queues/mpsc_mbuf_queue.rs:56-75 | one slot store keeps the invariant, all other producers' slots included |
| `MpscSafety.WaitKeeps` | framework/src/queues/mpsc_mbuf_queue.rs:155-160 | waiting for producer.tail keeps the invariant |
| `MpscSafety.CommitKeeps` | framework/src/queues/mpsc_mbuf_queue.rs:162 | a commit keeps the invariant and advances producer.tail by the reservation |
| `MpscSafety.ConsumerStepKeeps` | framework/src/queues/mpsc_mbuf_queue.rs:197-212 | every consumer step keeps the invariant |
| `MpscSafety.ReservationBounds` | framework/src/queues/mpsc_mbuf_queue.rs:118-167 | every reservation lies between producer.tail and producer.head |
| `MpscSafety.ReservationsDisjoint` | framework/src/queues/mpsc_mbuf_queue.rs:118-167 | two producers never hold overlapping reservations |
| `MpscSafety.WindowSlots` | framework/src/queues/mpsc_mbuf_queue.rs:56-75 | all positions between consumer.tail and producer.head use different slots |
| `MpscSafety.SingleProducerNeverWaits` | framework/src/queues/mpsc_mbuf_queue.rs:91-115 | alone on the ring a reservation is always at producer.tail, so skipping the wait is sound |
| `MpscSafety.CommitIsNext` | framework/src/queues/mpsc_mbuf_queue.rs:155-162 | a reservation starts at producer.tail if and only if it is the oldest one outstanding |
| `MpscTheorems.ReservationsTile` | framework/src/queues/mpsc_mbuf_queue.rs:118-167 | in every interleaving reservations cover exactly producer.tail to producer.head without overlap, at most slots - 1 positions are live, and no store hits an unread or foreign slot |
| `MpscTheorems.PrivateStore` | framework/src/queues/mpsc_mbuf_queue.rs:56-75 | the slot about to be written holds no unread position and no other reservation |
| `MpscTheorems.FirstInFirstOut` | framework/src/queues/mpsc_mbuf_queue.rs:56-212 | in every interleaving the mbufs dequeued are a prefix of those committed, which are the accepted slices in reservation order; every producer's slices appear in its own call order |
| `MpscTheorems.OldestIsUnique` | framework/src/queues/mpsc_mbuf_queue.rs:148-163 | while anything is outstanding exactly one reservation starts at producer.tail |
| `MpscTheorems.DriveOldest` | framework/src/queues/mpsc_mbuf_queue.rs:148-163 | the holder of the oldest reservation commits by its own steps alone |
| `MpscTheorems.DrainFrom` | framework/src/queues/mpsc_mbuf_queue.rs:148-163 | from every invariant state producer steps alone commit everything outstanding |
| `MpscTheorems.CommitsCanDrain` | framework/src/queues/mpsc_mbuf_queue.rs:148-163 | from every reachable state some schedule of producer steps commits everything: the waits cannot deadlock |
| `MpscCalls.ReservesGreedily` | framework/src/queues/mpsc_mbuf_queue.rs:124-146 | a successful exchange reserves a prefix of the batch: all of it, or up to slots - 1 positions past the loaded consumer.tail |
| `MpscCalls.ReturnsEmptyExactly` | framework/src/queues/mpsc_mbuf_queue.rs:124-134 | a call returns without inserting if and only if its batch is empty or the loaded head is slots - 1 past consumer.tail |
| `MpscCalls.CallsAnswered` | framework/src/queues/mpsc_mbuf_queue.rs:91-167 | in every interleaving the calls a producer made are, in order, those decided and the one under way; every decision is greedy; the non-empty slices are what its calls returned and one still in progress |
| `MpscCalls.RunAccounted` | framework/src/queues/mpsc_mbuf_queue.rs:91-167 | the same over any run from any reachable state |
| `MpscCalls.EnqueueInserts` | framework/src/queues/mpsc_mbuf_queue.rs:118-146 | from any reachable state, a call not interfered with before its exchange reserves as much of its batch as the ring has room for |
| `MpscCalls.DequeuesAnswered` | framework/src/queues/mpsc_mbuf_queue.rs:197-212 | in every interleaving each dequeue takes as many mbufs as fit or all that were committed, and exactly those are handed out |
| `MpscCalls.DequeueDelivers` | framework/src/queues/mpsc_mbuf_queue.rs:197-212 | from any reachable state a dequeue by itself delivers the oldest committed mbufs, as many as there are and fit |
| `MpscWrapping.StepSimulates` | framework/src/queues/mpsc_mbuf_queue.rs:91-212 | a step on wrapped 64-bit counters and masks is the wrapping of the same step on unbounded ones |
| `MpscWrapping.RunSimulates` | framework/src/queues/mpsc_mbuf_queue.rs:91-212 | the same for every schedule in which no loaded head grows nearly 2^64 positions old |
| `MpscWrapping.WrappedFirstInFirstOut` | framework/src/queues/mpsc_mbuf_queue.rs:91-212 | the 64-bit ring delivers first-in first-out in every such interleaving |
| `MpscWrapping.WrappedReservationsTile` | framework/src/queues/mpsc_mbuf_queue.rs:118-167 | the 64-bit ring's reservations tile, its computed occupancy is at most slots - 1, and no store hits an unread or foreign slot |
| `MpscWrapping.WrappedCommitsCanDrain` | framework/src/queues/mpsc_mbuf_queue.rs:148-163 | steps of the producers alone commit everything outstanding on the 64-bit ring |
| `MpscWrapping.WrappedCallsAnswered` | framework/src/queues/mpsc_mbuf_queue.rs:91-167 | every call on 64-bit counters is decided in order and greedily, and its slice returned |
| `MpscWrapping.WrappedDequeuesAnswered` | framework/src/queues/mpsc_mbuf_queue.rs:197-212 | every dequeue on 64-bit counters takes what it has room for or all it saw committed |
| `MpscQueue.Ring.constructor` | framework/src/queues/mpsc_mbuf_queue.rs:33-47 | an empty ring whose slot count is the least power of two at or above the size |
| `MpscQueue.Ring.ReferenceProducers` | framework/src/queues/mpsc_mbuf_queue.rs:51-53 | counts one more producer and changes nothing else |
| `MpscQueue.Ring.EnqueueMbufs` | framework/src/queues/mpsc_mbuf_queue.rs:56-75 | both copy loops together lay the mbufs circularly from the start slot and touch no other slot |
| `MpscQueue.Ring.DequeueMbufs` | framework/src/queues/mpsc_mbuf_queue.rs:175-194 | both copy loops together return the circular window from the start slot |
| `MpscQueue.Ring.EnqueueSp` | framework/src/queues/mpsc_mbuf_queue.rs:91-115 | appends the longest prefix that fits to the contents and answers its length |
| `MpscQueue.Ring.Dequeue` | framework/src/queues/mpsc_mbuf_queue.rs:197-212 | removes the front of the contents, as much as there is room for |
| `Lpm.LongestMatchMeaning` | test/lpm/src/nf.rs:49-98 | the reference answer is the gate of the entry with the greatest matching length, and none if nothing matches |
| `Lpm.ShortRange` | test/lpm/src/nf.rs:52-53 | an aligned prefix of at most 24 bits matches exactly the 24-bit table range the loop paints |
| `Lpm.LongRange` | test/lpm/src/nf.rs:66-67 | a longer aligned prefix matches exactly its stretch of one 256-entry block |
| `Lpm.AlignmentNeeded` | test/lpm/src/nf.rs:52-56 | the painted range is the prefix's range if and only if the key is aligned |
| `Lpm.BlockNumbersFit` | test/lpm/src/nf.rs:75-78 | a block number survives encoding if and only if it is below 2^15 |
| `Lpm.ShortPaints` | test/lpm/src/nf.rs:51-57 | painting a short prefix changes exactly the lookups it matches |
| `Lpm.BlockPaints` | test/lpm/src/nf.rs:78-82 | writing into an open block changes exactly the lookups the prefix matches |
| `Lpm.NewBlockPaints` | test/lpm/src/nf.rs:65-76 | opening a block keeps blocks distinct and changes exactly the lookups the prefix matches |
| `Lpm.AnswersAll` | test/lpm/src/nf.rs:49-86 | tables painted level by level over an older answer give the longest match of the newer entries |
| `Lpm.IPLookup.constructor` | test/lpm/src/nf.rs:24-33 | empty tables that answer 0 everywhere |
| `Lpm.IPLookup.Insert` | test/lpm/src/nf.rs:45-47 | records the gate under its length, replacing an equal key, and leaves the tables alone |
| `Lpm.IPLookup.PaintShort` | test/lpm/src/nf.rs:52-56 | the loop over the 24-bit table paints exactly one prefix |
| `Lpm.IPLookup.PaintLong` | test/lpm/src/nf.rs:61-83 | both branches paint exactly one prefix; a block is opened only for an entry that has none |
| `Lpm.IPLookup.PaintShortLevel` | test/lpm/src/nf.rs:51-57 | one level of short prefixes, in any map order |
| `Lpm.IPLookup.PaintLongLevel` | test/lpm/src/nf.rs:60-84 | one level of long prefixes, in any map order, opening no more blocks than needed |
| `Lpm.RebuildBlocks` | test/lpm/src/nf.rs:49-79 | a second construction from the same prefixes opens a block again for exactly the long entries a short prefix covers, with a default route for every one |
| `Lpm.IPLookup.ConstructTable` | test/lpm/src/nf.rs:49-86 | first construction or reconstruction: the tables answer the longest match of all entries, and exactly one block is opened per entry of a long prefix that has none or loses it to a short prefix |
| `Lpm.IPLookup.LookupEntry` | test/lpm/src/nf.rs:89-98 | answers the gate of the longest matching prefix of what was built, and 0 if no prefix matches |
| `Maglev.OffsetSkip` | test/maglev/src/nf.rs:21-31 | the offset lies in the table and the skip between 1 and the size less one |
| `Maglev.RowPermutation` | test/maglev/src/nf.rs:37-41 | over a prime size every row is a permutation of the slots |
| `Maglev.CompositeRepeats` | test/maglev/src/nf.rs:37-41 | a skip dividing the size revisits the first slot too early |
| `Maglev.RowsNeedPrime` | test/maglev/src/nf.rs:37-41 | all rows are permutations if and only if the size is prime |
| `Maglev.TableSizeIsPrime` | test/maglev/src/nf.rs:90 | the size used, 65537, is prime |
| `Maglev.GeneratedRowsGood` | test/maglev/src/nf.rs:33-42 | every generated row is a permutation, for any two hashes per backend |
| `Maglev.RowSlot` | test/maglev/src/nf.rs:21-42 | place j of a row is (hash2 + j * (hash1 % (size - 1) + 1)) % size |
| `Maglev.ClaimsBestFree` | test/maglev/src/nf.rs:50-60 | in its turn a backend claims the slot it ranks best among those free |
| `Maglev.FirstSlot` | test/maglev/src/nf.rs:44-64 | in every table that follows the turns, the slot of backend 0's second hash is backend 0's |
| `Maglev.RowNotExhausted` | test/maglev/src/nf.rs:51-55 | while a slot is free no backend has passed its whole row, so no index leaves a row |
| `Maglev.PicksDistinct` | test/maglev/src/nf.rs:49-65 | the slots claimed turn by turn are distinct and in the table |
| `Maglev.FindFree` | test/maglev/src/nf.rs:51-55 | the inner loop ends at the backend's first unclaimed slot without leaving the row |
| `Maglev.TakeTurns` | test/maglev/src/nf.rs:50-64 | one round claims one slot per backend in turn, or stops with the table full |
| `Maglev.GenerateLut` | test/maglev/src/nf.rs:44-68 | terminates with the table in which the slot claimed in turn t names backend t mod N |
| `Maglev.TurnsDecide` | test/maglev/src/nf.rs:44-68 | that table is unique |
| `Maglev.Balanced` | test/maglev/src/nf.rs:44-68 | backend i owns S / N entries, plus one exactly when i < S mod N, and every entry names a backend |
| `Maglev.New` | test/maglev/src/nf.rs:70-76 | the built table follows the turns, is exactly balanced and names only backends |
| `Maglev.LookupBackend` | test/maglev/src/nf.rs:78-81 | every hash maps to a backend, the one of its slot |
| `RingBuffer.CommittedIsStable` | framework/src/state/ring_buffer.rs:82-158 | over any run of operations whose seeks stay within what is held and within the room, from a new ring on, at most size - 1 bytes are held, both positions only advance, and no byte below the write position is ever overwritten |
| `RingBuffer.OpMeaning` | framework/src/state/ring_buffer.rs:82-158 | what each operation does to positions and bytes: writes store exactly what lies in the window, reads move by the least of length, increment and bytes held, seeks as told |
| `RingBuffer.SeekTailExactly` | framework/src/state/ring_buffer.rs:85-158 | moving the tail keeps the window if and only if there is room; past that the computed free space wraps to nearly 2^64 |
| `RingBuffer.SeekPastRoomOverwrites` | framework/src/state/ring_buffer.rs:84-158 | four cells, three bytes, a seek by one: the next write replaces the oldest unread byte |
| `RingBuffer.LayKeeps` | framework/src/state/ring_buffer.rs:57-68 | writing ahead of the read position leaves every other position of the window alone |
| `RingBuffer.WindowReads` | framework/src/state/ring_buffer.rs:42-53 | the cells from the read slot on are the logged bytes from the read position on |
| `RingBuffer.Ring.New` | framework/src/state/ring_buffer.rs:25-38 | succeeds if and only if the size is a power of two, with an empty log |
| `RingBuffer.Ring.WrappedWrite` | framework/src/state/ring_buffer.rs:57-68 | lays the data circularly and touches no other cell |
| `RingBuffer.Ring.WrappedRead` | framework/src/state/ring_buffer.rs:42-53 | returns the circular window |
| `RingBuffer.Ring.WriteAtTail` | framework/src/state/ring_buffer.rs:84-93 | appends the longest prefix that fits to the log |
| `RingBuffer.Ring.WriteAtOffsetFromTail` | framework/src/state/ring_buffer.rs:98-109 | writes the longest prefix that fits past the gap, or nothing when the offset lies beyond the room |
| `RingBuffer.Ring.Available` | framework/src/state/ring_buffer.rs:113-115 | the wrapping difference is the number of bytes held |
| `RingBuffer.Ring.ReadFromHeadWithIncrement` | framework/src/state/ring_buffer.rs:124-129 | returns the last byte written at each position from the read position on, and moves on by the increment at most |
| `RingBuffer.Ring.ReadFromHead` | framework/src/state/ring_buffer.rs:133-136 | returns and consumes the oldest readable bytes |
| `RingBuffer.Ring.SeekHead` | framework/src/state/ring_buffer.rs:141-145 | consumes without reading |
| `RingBuffer.Ring.SeekTail` | framework/src/state/ring_buffer.rs:156-158 | moves the tail whatever the room; the ring stays valid if and only if there was room |
| `RingBuffer.Ring.Perform` | framework/src/state/ring_buffer.rs:84-158 | any legal run of operations leaves the log of that run, and every read returns the last byte written at each position |
| `RingBuffer.Ring.Clear` | framework/src/state/ring_buffer.rs:161-164 | empties the log |
| `SegmentList.List.constructor` | framework/src/state/reordered_buffer/reordered_buffer.rs:54-63 | an empty list with every node available |
| `SegmentList.List.FindAvailableNode` | framework/src/state/reordered_buffer/reordered_buffer.rs:73-81 | takes a free node or grows the storage; live nodes are never handed out |
| `SegmentList.List.InsertBeforeNode` | framework/src/state/reordered_buffer/reordered_buffer.rs:85-103 | links the new node in front of the list and makes it the head |
| `SegmentList.List.InsertAtTail` | framework/src/state/reordered_buffer/reordered_buffer.rs:125-135 | the new node is linked behind the old tail and becomes the tail |
| `SegmentList.List.MergeAtIdx` | framework/src/state/reordered_buffer/reordered_buffer.rs:138-173 | joins a touching successor and frees its node, or cuts at 65535 bytes; never ends when the successor does not touch |
| `SegmentList.List.FindPlace` | framework/src/state/reordered_buffer/reordered_buffer.rs:186-227 | the walk extends, overlaps, goes in front, or finds nothing, as the placement says |
| `SegmentList.List.InsertSegment` | framework/src/state/reordered_buffer/reordered_buffer.rs:177-238 | where the segment goes, when the call never ends, and the list after it, 16-bit cuts included |
| `SegmentList.List.ConsumeHeadData` | framework/src/state/reordered_buffer/reordered_buffer.rs:254-271 | takes bytes off the front segment if it starts there, dropping it when used up |
| `SegmentList.List.RemoveHead` | framework/src/state/reordered_buffer/reordered_buffer.rs:247-251 | the list is empty and the node is free again |
| `SegmentList.List.Clear` | framework/src/state/reordered_buffer/reordered_buffer.rs:274-283 | the list is empty and its nodes are free again |
| `Reassembly.AtTailKeeps` | framework/src/state/reordered_buffer/reordered_buffer.rs:404-418 | data at the tail of an in-order buffer keep it well-formed, sequence numbers modulo 2^32 |
| `Reassembly.FillExactly` | framework/src/state/reordered_buffer/reordered_buffer.rs:457-495 | data at the write position go well if and only if they are a good fill; then the buffer is in order again and well-formed |
| `Reassembly.FrontFillExactly` | framework/src/state/reordered_buffer/reordered_buffer.rs:466-490 | the same for a list that begins at the read position |
| `Reassembly.IslandFillExactly` | framework/src/state/reordered_buffer/reordered_buffer.rs:466-490 | the same for a list that begins past the write position: too short never ends, too long fails the assertion |
| `Reassembly.AheadExactly` | framework/src/state/reordered_buffer/reordered_buffer.rs:507-526 | data past a gap go well if and only if they are good, keep the buffer well-formed then, and exactly when the call never ends |
| `Reassembly.AddExactly` | framework/src/state/reordered_buffer/reordered_buffer.rs:362-378 | every insertion in scope goes well if and only if it is safe |
| `Reassembly.AddKeeps` | framework/src/state/reordered_buffer/reordered_buffer.rs:362-378 | every safe insertion returns and keeps the buffer well-formed |
| `Reassembly.ReadKeeps` | framework/src/state/reordered_buffer/reordered_buffer.rs:382-394 | every read keeps the buffer well-formed |
| `ReassemblyTheorems.TraceKeeps` | framework/src/state/reordered_buffer/reordered_buffer.rs:349-534 | every safe trace keeps the buffer well-formed |
| `ReassemblyTheorems.AddLays` | framework/src/state/reordered_buffer/reordered_buffer.rs:404-527 | an insertion stores exactly the part of the segment it takes, at or past the write position |
| `ReassemblyTheorems.DeliversTheLog` | framework/src/state/reordered_buffer/reordered_buffer.rs:349-534 | over every safe trace, whatever the segments hold, the bytes handed out are the log's from where reading began to where it stands |
| `ReassemblyTheorems.DeliversTheStream` | framework/src/state/reordered_buffer/reordered_buffer.rs:349-534 | if the stored bytes are one sender's, they are that sender's stream |
| `ReassemblyTheorems.InOrderDelivers` | framework/src/state/reordered_buffer/reordered_buffer.rs:404-444 | segments at the tail, straddling it or ending before it never leave Connected; bytes read followed by bytes readable are the old ones followed by those accepted; tail_seq - head_seq equals the bytes available modulo 2^32, across the wrap |
| `ReassemblyAnswers.InOrderAnswered` | framework/src/state/reordered_buffer/reordered_buffer.rs:404-418 | in order, `written` of the bytes become readable behind the old ones; Inserted if and only if that is all of them, otherwise the ring is full; `available` is the number readable |
| `ReassemblyAnswers.AheadAnswered` | framework/src/state/reordered_buffer/reordered_buffer.rs:507-526 | past a gap nothing becomes readable; exactly the bytes in the ring's window are stored and counted; Inserted if and only if that is all |
| `ReassemblyAnswers.FillAnswered` | framework/src/state/reordered_buffer/reordered_buffer.rs:458-495 | a fill is always answered Inserted; what it stores, how much becomes readable, and which of two counts it returns |
| `ReassemblyAnswers.AddAnswered` | framework/src/state/reordered_buffer/reordered_buffer.rs:361-379 | the answer of every insertion that returns, by where the segment lies, safe or not |
| `ReassemblyAnswers.FillAnswerExactly` | framework/src/state/reordered_buffer/reordered_buffer.rs:458-495 | after a fill, Inserted is right about the bytes if and only if there was room for all of them |
| `ReassemblyAnswers.FillCountExactly` | framework/src/state/reordered_buffer/reordered_buffer.rs:477-482 | its count is the number of bytes that became readable if and only if the data or the bytes behind them add none |
| `ReassemblyGaps.ReadsOverGap` | framework/src/state/reordered_buffer/reordered_buffer.rs:382-394 | any reads while a gap is open deliver the in-order data and keep the gap |
| `ReassemblyGaps.GapFilledExactly` | framework/src/state/reordered_buffer/reordered_buffer.rs:457-527 | a chunk past a gap, any reads, then an exact fill: back to Connected, and what was read plus what is readable is old data, filler, chunk, in order |
| `ReassemblyGaps.TouchExactly` | framework/src/state/reordered_buffer/reordered_buffer.rs:186-227 | after a segment that touches the waiting bytes, any data that fill the remaining gap exactly go well if and only if the segment was good, and otherwise never return |
| `ReassemblyGaps.TouchBelow` | framework/src/state/reordered_buffer/reordered_buffer.rs:213-232 | one that overlaps them from below is put behind them, and every fill up to them then never ends |
| `ReassemblyFailures.MissedWindow` | framework/src/state/reordered_buffer/reordered_buffer.rs:507-514 | after a segment past the window some data at the write position are handled correctly if and only if data were waiting and the cut length ends inside the window |
| `ReassemblyFailures.MissedThenEndless` | framework/src/state/reordered_buffer/reordered_buffer.rs:507-514 | a concrete such case on an empty buffer: the next byte never returns |
| `ReassemblyFailures.MissedThenPastCapacity` | framework/src/state/reordered_buffer/reordered_buffer.rs:472-482 | and one with a byte waiting: the next byte moves the ring's tail past its capacity |
| `ReassemblyFailures.ShortOfFirst` | framework/src/state/reordered_buffer/reordered_buffer.rs:138-172 | data past the write position that end in front of the first segment without touching it never return |
| `ReassemblyFailures.InFrontEndless` | framework/src/state/reordered_buffer/reordered_buffer.rs:213-216 | opened at 100, ten bytes at 110, two at 103: the last call never returns |
| `ReassemblyFailures.JoinedBelow` | framework/src/state/reordered_buffer/reordered_buffer.rs:213-217 | opened at 100, ten bytes at 110, five at 105: they join, and five at 100 close the gap |
| `ReassemblyFailures.OverlapThenEndless` | framework/src/state/reordered_buffer/reordered_buffer.rs:213-232 | opened at 100, ten bytes at 110, ten at 105: the five at 100 that close the gap never return |
| `ReassemblyFailures.ShortFillEndless` | framework/src/state/reordered_buffer/reordered_buffer.rs:142-172 | a fill that stops short of waiting bytes never returns |
| `ReassemblyFailures.LongFillNotHead` | framework/src/state/reordered_buffer/reordered_buffer.rs:466-470 | a fill that reaches into them fails the is-head assertion |
| `ReassemblyFailures.ShortFillExposes` | framework/src/state/reordered_buffer/reordered_buffer.rs:472-482 | with data waiting in order, a short fill makes an unreceived byte readable |
| `ReassemblyFailures.FillDropsSilently` | framework/src/state/reordered_buffer/reordered_buffer.rs:458-495 | 64 cells, opened at 100 with a byte, a byte at 103: of a hundred bytes at 101 the answer says Inserted and 38 are dropped |
| `ReassemblyFailures.FillMiscounts` | framework/src/state/reordered_buffer/reordered_buffer.rs:477-482 | the same buffer: two bytes at 101 make three readable and the answer says two |
| `ReassemblyFailures.DuplicateBlocksReads` | framework/src/state/reordered_buffer/reordered_buffer.rs:382-391 | after data repeated up to the tail, a sequence of reads is safe if and only if each one still finds bytes |
| `ReassemblyFailures.DuplicateBlocksReadsExample` | framework/src/state/reordered_buffer/reordered_buffer.rs:445-453 | a concrete case: repeat one byte, read it, read again |
| `ReorderedBuffer.Buffer.New` | framework/src/state/reordered_buffer/reordered_buffer.rs:322-339 | a closed, well-formed buffer of the least power of two at or above the size |
| `ReorderedBuffer.Buffer.Reset` | framework/src/state/reordered_buffer/reordered_buffer.rs:342-346 | closed and empty |
| `ReorderedBuffer.Buffer.Seq` | framework/src/state/reordered_buffer/reordered_buffer.rs:349-359 | opens the buffer at a sequence number: state, list, bytes and answer as for in-order data on an empty buffer |
| `ReorderedBuffer.Buffer.FastPathInsert` | framework/src/state/reordered_buffer/reordered_buffer.rs:404-418 | carries out data at the tail; the answer counts the bytes that became readable and is Inserted exactly when all did |
| `ReorderedBuffer.Buffer.AddHeadToSegList` | framework/src/state/reordered_buffer/reordered_buffer.rs:421-430 | the segment list then holds exactly the in-order data |
| `ReorderedBuffer.Buffer.FillAtTail` | framework/src/state/reordered_buffer/reordered_buffer.rs:457-495 | carries out a fill: which failure, or the state and the reply |
| `ReorderedBuffer.Buffer.CloseGap` | framework/src/state/reordered_buffer/reordered_buffer.rs:471-495 | ring, list, state and sequence numbers after the tails are moved |
| `ReorderedBuffer.Buffer.InsertAhead` | framework/src/state/reordered_buffer/reordered_buffer.rs:507-526 | carries out data past a gap, inside the window or not: whether it returns, the state and the reply |
| `ReorderedBuffer.Buffer.OutOfOrderInsert` | framework/src/state/reordered_buffer/reordered_buffer.rs:457-527 | carries out any segment in out-of-order mode |
| `ReorderedBuffer.Buffer.SlowPathInsert` | framework/src/state/reordered_buffer/reordered_buffer.rs:432-455 | carries out straddling, old and out-of-order segments on an in-order buffer |
| `ReorderedBuffer.Buffer.AddData` | framework/src/state/reordered_buffer/reordered_buffer.rs:362-378 | carries out any segment in scope; the answer says what was stored and became readable, by where the segment lies |
| `ReorderedBuffer.Buffer.ReadData` | framework/src/state/reordered_buffer/reordered_buffer.rs:382-394 | returns the oldest readable bytes and consumes them; finds no list head if and only if the list ran empty in out-of-order mode |
| `ReorderedBuffer.Buffer.Process` | framework/src/state/reordered_buffer/reordered_buffer.rs:349-534 | any safe sequence of segments and reads ends in the trace's state and hands out the trace's bytes |
| `PacketBatch.Partition` | framework/src/operators/packet_batch.rs:104-157 | every packet is kept or rejected, once |
| `PacketBatch.KeptInOrder` | framework/src/operators/packet_batch.rs:104-157 | what is kept is what stood at the kept positions, in increasing order of position |
| `PacketBatch.Compact` | framework/src/operators/packet_batch.rs:110-135 | both copy loops leave the survivors in order at the front, collect the rest, and meet every listed index if and only if all are in range |
| `PacketBatch.Batch.constructor` | framework/src/operators/packet_batch.rs:25-30 | an empty batch, nothing taken |
| `PacketBatch.Batch.FreePacketBatch` | framework/src/operators/packet_batch.rs:203-222 | frees every mbuf held, once |
| `PacketBatch.Batch.Recv` | framework/src/operators/packet_batch.rs:78-99 | frees what was left and holds what the port delivered |
| `PacketBatch.Batch.DropPacketsStable` | framework/src/operators/packet_batch.rs:104-157 | answers None if and only if a listed index is out of range; otherwise keeps the rest in order and frees exactly the listed packets |
| `PacketBatch.Batch.ConsumeBatchPartial` | framework/src/operators/packet_batch.rs:166-173 | the first packets are gone, the others keep their order |
| `PacketBatch.Batch.SendQ` | framework/src/operators/packet_batch.rs:254-269 | what the port accepted is sent, a prefix of the batch; the rest stays |
| `PacketBatch.Batch.CollectRejected` | framework/src/operators/iterator.rs:76-91 | the removal list is strictly increasing, in range, and holds exactly the rejected indices |
| `PacketBatch.Batch.Filter` | framework/src/operators/filter_batch.rs:48-67 | leaves exactly the accepted packets in order and frees exactly the others; its `expect` cannot fire |
| `Pipeline.WireInOrder` | framework/src/operators/send_batch.rs:66-78 | what one cycle sends is a subsequence of what it received |
| `Pipeline.OneFilterExactly` | framework/src/operators/filter_batch.rs:48-67 | one filter leaves exactly the packets at the positions it accepts, in order |
| `Pipeline.SurvivorsChain` | framework/src/operators/filter_batch.rs:48-67 | each filter works on what the ones in front of it left |
| `Pipeline.SurvivorsExactly` | framework/src/operators/filter_batch.rs:48-67 | with filters that look at the packet only, a packet survives as often as it arrived if every filter accepts it, and not at all otherwise |
| `Pipeline.WireExactly` | framework/src/operators/send_batch.rs:65-76 | the port gets the oldest survivors: all, or as many as it takes |
| `Pipeline.RunInOrder` | framework/src/operators/send_batch.rs:66-78 | over any run of cycles packets leave in the order they arrived |
| `Pipeline.Chain.Receive` | framework/src/operators/receive_batch.rs:52-61 | the batch holds what the port delivered, and the counter counts it |
| `Pipeline.Chain.ApplyFilters` | framework/src/operators/filter_batch.rs:48-67 | a chain of filters leaves what survives all of them |
| `Pipeline.Chain.Cycle` | framework/src/operators/send_batch.rs:66-78 | receive, filter, send a prefix of the survivors, free the rest: the batch is empty again |
| `Pipeline.Chain.Run` | framework/src/operators/send_batch.rs:66-78 | over any number of cycles, mbufs taken = sent + freed, and both counters count them |
| `SchedulerLog.NothingAfterShutdown` | framework/src/scheduler/standalone_scheduler.rs:92-124 | in every allowed log nothing follows a Shutdown, taken at any nesting depth, until the scheduler is started again |
| `SchedulerLog.CommandsCarriedOut` | framework/src/scheduler/standalone_scheduler.rs:92-106 | in every log, Execute is followed by entering a loop, Add by exactly one task queued, a handshake by its answer, Shutdown by a restart |
| `SchedulerLog.ClosureCarriedOut` | framework/src/scheduler/standalone_scheduler.rs:95 | a closure taken is followed by exactly its tasks being queued |
| `SchedulerLog.NothingFound` | framework/src/scheduler/standalone_scheduler.rs:138-140 | a poll that found nothing is followed by the next run |
| `SchedulerLog.QueueGrowth` | framework/src/scheduler/standalone_scheduler.rs:92-106 | while commands are taken the queue grows by exactly what they ask for |
| `SchedulerLog.RoundIsComplete` | framework/src/scheduler/standalone_scheduler.rs:136-145 | at every poll each queued task has run exactly once, in order, since the poll before |
| `SchedulerLog.RunCount` | framework/src/scheduler/standalone_scheduler.rs:127-158 | in any stretch of the scheduler's log that starts between rounds, a task queued before it has run once per poll, plus one if its turn in the current round is over |
| `SchedulerLog.Fair` | framework/src/scheduler/standalone_scheduler.rs:127-158 | in such a stretch run counts of tasks queued before it differ by at most one |
| `SchedulerLog.Telescopes` | framework/src/scheduler/standalone_scheduler.rs:150-158 | from a loop's first reading to any point before another loop starts, the charges add up to the start of the next charge minus the first reading |
| `SchedulerLog.TelescopesToRun` | framework/src/scheduler/standalone_scheduler.rs:150-158 | up to any run in that stretch they add up to that run's end minus the loop's first reading |
| `SchedulerLog.ChargesConserved` | framework/src/scheduler/standalone_scheduler.rs:131-133 | every charge goes to exactly one queued task |
| `StandaloneScheduler.Scheduler.AddTask` | framework/src/scheduler/standalone_scheduler.rs:66-69 | queues a task with no cycles and answers its handle |
| `StandaloneScheduler.Scheduler.HandleRequest` | framework/src/scheduler/standalone_scheduler.rs:92-106 | carries out the command: Add and closures queue their tasks, Execute enters a loop at the next reading, a handshake is answered, Shutdown stops; readings and commands are used in order, none lost; an active loop stays active exactly when Shutdown was not taken |
| `StandaloneScheduler.Scheduler.RunNext` | framework/src/scheduler/standalone_scheduler.rs:128-145 | the next task runs, is charged from begin to end, and the turn passes on in range |
| `StandaloneScheduler.Scheduler.ExecuteInternal` | framework/src/scheduler/standalone_scheduler.rs:127-147 | one turn and, after the last task of a round, one poll; nested loops have unwound when it returns |
| `StandaloneScheduler.Scheduler.ExecuteLoop` | framework/src/scheduler/standalone_scheduler.rs:150-158 | enters with the next reading, ends by Shutdown or at once on an empty queue; every reading is logged in order |
| `StandaloneScheduler.Scheduler.HandleRequests` | framework/src/scheduler/standalone_scheduler.rs:108-124 | leaves with Shutdown taken, or with every command ever sent taken in order |
| `EmbeddedScheduler.Scheduler.AddTask` | framework/src/scheduler/embedded_scheduler.rs:39-42 | the new handle is fresh and dependencies stay on earlier handles |
| `EmbeddedScheduler.Scheduler.ExecTask` | framework/src/scheduler/embedded_scheduler.rs:54-63 | terminates and runs exactly the dependency trace |
| `EmbeddedScheduler.DependenciesFirst` | framework/src/scheduler/embedded_scheduler.rs:54-63 | wherever a task runs, a complete execution of its dependencies comes directly before it |
| `EmbeddedScheduler.TransitiveDependenciesFirst` | framework/src/scheduler/embedded_scheduler.rs:54-63 | every transitive dependency has run before its dependent |
| `EmbeddedScheduler.RunsPerPath` | framework/src/scheduler/embedded_scheduler.rs:54-63 | a task runs exactly as many times as there are dependency paths to it |
| `EmbeddedScheduler.TraceIsDepthFirst` | framework/src/scheduler/embedded_scheduler.rs:54-63 | a trace is the endpoints of all dependency paths in depth-first order, dependencies as listed, each path once |
| `EmbeddedScheduler.LaterTasksDoNotMatter` | framework/src/operators/group_by.rs:82-108 | tasks queued later do not change what an earlier handle executes |
| `Flows.ExtractFlow` | framework/src/utils/flow.rs:53-62 | succeeds if and only if the packet reaches past addresses and ports |
| `Flows.ExtractBytes` | framework/src/utils/flow.rs:53-62 | ports are the big-endian bytes behind as many words as the low nibble of byte 0 says, addresses those at 12 and 16, the protocol byte 9 |
| `Flows.ReplyBytes` | framework/src/utils/flow.rs:66-90 | stamping a packet with its own flow reversed swaps addresses and ports byte for byte and keeps the protocol |
| `Flows.StampFlow` | framework/src/utils/flow.rs:77-90 | the writes in place amount to the stamped packet |
| `Flows.StampBytes` | framework/src/utils/flow.rs:77-89 | every byte of a stamped packet, overlapping fields included; bytes 10 and 11 are the checksum of the packet in which they are zero |
| `Flows.StampFrame` | framework/src/utils/flow.rs:77-90 | stamping touches checksum, addresses and ports, nothing else |
| `Flows.StampThenExtract` | framework/src/utils/flow.rs:53-90 | extracting a stamped packet yields the flow stamped |
| `Flows.RoundTripsExactly` | framework/src/utils/flow.rs:53-90 | that holds for all flows if and only if the header has one word or at least five |
| `Nat.Injective` | test/nat/src/nf.rs:54-55 | two flows never share a translation |
| `Nat.InsertKeepsInvolutionExactly` | test/nat/src/nf.rs:49-55 | when a new pair of entries keeps the map an involution under reversal, both ways |
| `Nat.InsertIsStableExactly` | test/nat/src/nf.rs:49-55 | when it leaves every earlier translation alone, both ways |
| `Nat.PacketKeeps` | test/nat/src/nf.rs:35-59 | a packet keeps the table's invariant and every earlier translation, and is sent where the table says |
| `Nat.TraceKeeps` | test/nat/src/nf.rs:32-61 | so does every trace of flows that fit |
| `Nat.ReplyReachesSender` | test/nat/src/nf.rs:32-61 | after any trace and any further trace a flow is still sent to the same place, and a reply to it back to where it came from |
| `Nat.PortsUnique` | test/nat/src/nf.rs:45-51 | two flows leaving the network never share a port, whatever their destinations |
| `Nat.PanicsExactly` | test/nat/src/nf.rs:28-47 | the side table is indexed out of range if and only if the flow is new and the counter is in 64511..65534 |
| `Nat.OutcomeExactly` | test/nat/src/nf.rs:35-58 | which of the four outcomes a flow has, and what a new flow leaves with |
| `Nat.EachTakesAPort` | test/nat/src/nf.rs:44-55 | n different flows not aimed at the translator take ports 1024 to 1024 + n - 1 |
| `Nat.PortsRunOut` | test/nat/src/nf.rs:44-48 | after 63487 of them one more panics |
| `Nat.EnoughFlows` | test/nat/src/nf.rs:28-47 | there are that many |
| `Nat.AimingAtTranslator` | test/nat/src/nf.rs:49-55 | a flow aimed at a port not yet assigned loses its translation |
| `Nat.BytesCarryTranslation` | test/nat/src/nf.rs:34-59 | the bytes that leave carry exactly the translated flow |
| `Nat.Translator.Lookup` | test/nat/src/nf.rs:36-55 | finds or assigns the translation, updating map, side table and counter |
| `Nat.Translator.Process` | test/nat/src/nf.rs:34-60 | rewrites the packet to its translation, passes it when ports are used up, and panics exactly when it is too short or the side table ends |
| `Nat.Translator.ProcessAll` | test/nat/src/nf.rs:32-61 | a trace of packets whose flows fit: none panics, the table is the trace's, and every packet leaves with its flow's translation |

## Left out

- Memory ordering of the ring's atomics: steps are sequentially consistent; acquire/release reordering is not modelled.
- `enqueue` choosing between its two variants while producers are being added: the number of producers is fixed during a run, as the source's comment on `reference_producers` assumes.
- MpscWrapping.StepSimulates: not for a producer whose loaded head is about 2^64 positions old, where a compare-and-exchange may succeed by coincidence.
- MpscWrapping.RunSimulates: not for schedules in which a loaded head grows that old (`RecentRun`).
- MpscWrapping.WrappedFirstInFirstOut: the same schedules, as for `MpscWrapping.WrappedReservationsTile` and `MpscWrapping.WrappedCommitsCanDrain`.
- MpscQueue.Ring.EnqueueSp: the class is used by one caller at a time; concurrent callers are the step system's subject.
- Lpm.IPLookup.ConstructTable: needs aligned keys, room for the blocks it opens (`Lpm.NewBlocks`), and gates below 0x8000 on prefixes of at most 24 bits; outside that the table format itself cannot hold the entries (`Lpm.AlignmentNeeded`, `Lpm.BlockNumbersFit`).
- Maglev.New: the two hash functions are parameters; the size is prime (`Maglev.RowsNeedPrime`), and there are at least one and at most 0x8000 backends, since 0x8000 marks an empty slot.
- SegmentList.List.InsertSegment: of a list with several segments only the first is followed, which decides what ends in front of it. The other insertions into such a list and `insert_after_node` are not modelled. A list gets several segments only by an insertion that `Reassembly.AheadExactly` or `Reassembly.FillExactly` calls bad. One such list really holds one segment: after a join in front of the first, `tail` names the freed node, and a segment put behind it is linked to itself and lost; the model does not tell the two apart. Segment ends do not pass 2^32.
- SegmentList.List.InsertBeforeNode: in front of the list, not inside one.
- SegmentList.List.MergeAtIdx: one successor, which does not overlap.
- SegmentList.List.ConsumeHeadData: lists of several segments only where they do not start at the position read.
- SegmentList.List.RemoveHead: a list of one segment, like `SegmentList.List.Clear` and `ReorderedBuffer.Buffer.Reset`.
- ReorderedBuffer.Buffer.New: sizes up to 65536, so that segment lengths can describe the ring.
- ReorderedBuffer.Buffer.FillAtTail: no sequence number passes 2^32 in out-of-order mode, where the code compares them as plain numbers; the same holds for the other members in that mode. In order, wrapping is modelled.
- Error returns of ports, and allocation of fresh mbufs by a batch; `mbuf_free_bulk` cannot fail.
- Packet counters are unbounded; the source's are 64-bit.
- The producer half of GroupBy, header parsing, transforms and metadata.
- StandaloneScheduler.Scheduler.HandleRequest: closures sent to the scheduler only add tasks (`RunClosure`); ones that run the scheduler themselves are not modelled. `execute_one` is left out.
- StandaloneScheduler.Scheduler.ExecuteLoop: called by a command, or by the owner while nobody takes commands and no Shutdown was taken. Channel contents and clock readings are inputs, and a run is followed until its readings are used up.
- StandaloneScheduler.Scheduler.RunNext: cycle counters are integers; 64-bit overflow is not modelled.
- EmbeddedScheduler.Scheduler.AddTask: dependencies name handles given out before; otherwise the source recurses without end or indexes out of range.
- Flows.StampFlow: needs a packet long enough; the source panics otherwise. The checksum routine is a parameter.
- Nat.PacketKeeps: new flows aimed at the translator, or past port 64510, are excluded by `Fits`; `Nat.InsertKeepsInvolutionExactly`, `Nat.AimingAtTranslator`, `Nat.PanicsExactly` and `Nat.PortsRunOut` say what happens there.
- Nat.TraceKeeps: traces of flows that fit, like `Nat.ReplyReachesSender` and `Nat.Translator.ProcessAll`.
- The mergeable stores, header bit fields, raw packet access, DPDK bindings, control servers, shared memory and configuration: input/output, foreign calls, or facts of one branch each.
