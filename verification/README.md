# A verified model of the SSB column store's scan and semi-join path

The store answers the first query flight of the Star Schema Benchmark by dictionary-encoding its
columns, packing the codes into 4 KB pages, handing the pages through a lock-free queue to a thread
that drives an FPGA, scanning or semi-joining them there, and gathering the result bits. This
project models that path and proves what each part promises the next.

| file | what it models |
|---|---|
| `WorkQueue.dfy`, `NodePool.dfy` | the linked queue with its dummy node, lagging tail and helping CASes, as interleaved atomic steps of any number of threads; where its nodes come from |
| `LockFreedom.dfy` | why the queue's retry loops make progress: all statements of all threads against completed calls |
| `QueueDrain.dfy`, `Dispatch.dfy` | the accelerator thread's `while (isNotEmpty()) nextElement()` loop, run any number of times, beside any number of producers and with items it adds itself in between; from enqueued partitions to the gathered bits |
| `Filters.dfy`, `ScanAfu.dfy` | comparison units and the scan accelerators (three whole-line filters, or a cascade of eight stages), one simultaneous register update per clock tick |
| `ScanSession.dfy` | one accepted partition against a memory of any latency of at least one cycle, and any back-pressure: traffic, results, timing |
| `ScanSystem.dfy`, `ScanProgress.dfy` | host program, CSR registers and scan accelerator together, over a whole query: safety, and when it ends |
| `JoinAfu.dfy`, `JoinSession.dfy`, `JoinSystem.dfy`, `JoinTermination.dfy` | the same levels for the two-phase semi-join |
| `BlockRead.dfy` | the counter-driven block reader |
| `Compressor.dfy`, `Encoding.dfy`, `Column.dfy`, `Partition.dfy`, `RoundTrip.dfy`, `Lines.dfy` | dictionary and code width, from raw values to packed pages, packing, decoding, words as cache lines |
| `JobWrapper.dfy`, `ResultMemory.dfy`, `ScanPipeline.dfy`, `JoinPipeline.dfy` | result buffers, what issued writes leave in memory, and the end-to-end theorems |
| `SimdScan.dfy` | the SIMD scan of 8-bit codes and its agreement with the accelerator |
| `Barrier.dfy` | the reusable thread barrier |
| `Bits.dfy`, `Wrappers.dfy` | machine words as bit vectors; the optional value |

How to read it. Anything the source updates in place is a class whose methods are proved against a
step function of the snapshot (`ensures Snapshot() == Step(old(Snapshot()), ...)`); the lemmas are
about that step function and runs of it. Everything the source does not determine is a parameter of
a step: which thread moves, whether a weak CAS fails spuriously, a condition wait wakes up by itself,
a channel is almost full, a read is answered, or a CSR operation has arrived. So a theorem over runs
of the queue, the barrier, the drain loop or one accelerator covers every schedule and environment. The
theorems about host and accelerator together cover the disciplined runs, in which a poll is not sampled
while the page's address pulse is on its way and the result address arrives before it is needed; what
the other kind does is the subject of the stale-poll and late-address lemmas. Such a run begins with
the accelerator waiting, after a reset or after an earlier scan, the done flag up or down.

Where the source differs from its own comments or from what one may expect, the model follows the
code, and a lemma says exactly when the expected property holds:

* `isNotEmpty()` may answer false with one element linked. With no `add` under way it does so exactly
  when the last tail swing failed spuriously and nobody has moved the tail since
  (`QueueDrain.LoopExit`, `WorkQueue.LaggingExactlyWhen`; a run from the empty queue in
  `QueueDrain.LostSwingHidesElement`). The last work unit is then left for the next drain of the queue,
  whose first it is (`Dispatch.DispatchedInOrder`, `Dispatch.NextDrainMayBegin`).
* The page count at four bits loses the last row exactly when the row count is 1 modulo 8192
  (`Column.PagesCover`).
* The `uint64_t` copy of a small four-bit column runs one word past its slice exactly when the row
  count modulo 128 is between 1 and 63 (`JobWrapper.CopyStaysInSlice`). Such a column has one partition,
  so that word is past the end of the array itself (`JobWrapper.CopyStaysInArray`).
* The byte comparison of the SIMD scan is signed (`SimdScan.AgreeExactlyOnSameSide`). Line 68 of
  `ScanApi.cpp` casts the value of a result word to a pointer where its comment describes the byte
  view starting at that word; the model takes the view.
* A host that polls too early reads another partition's done flag: for every page but the first, and
  for the first when an earlier scan left the flag up, which nothing lowers in between
  (`ScanProgress.StaleExactlyWhen`, `JoinSystem.JoinStalePoll`; runs from the start that lead there in
  `ScanProgress.StalePollRun` and `JoinSystem.StaleMapPollRun`).
* A line that completes before the host has sent the page's result address goes to the page before's
  result buffer (`ScanSystem.LateAddressMisplaces`; runs from the start in `ScanProgress.LateAddressRun`).
* A condition wait that wakes spuriously lets a thread through the barrier early
  (`Barrier.ReturnsOnlyAfterAllArrived`, and a run from the initial state in `Barrier.EarlyReturnRun`).
* `distinct_keys` starts at -1, so the code width is computed from one value less than there are;
  codes fit all the same (`Compressor.CodesFit`), though the width is not always the least that
  would do (`Compressor.WidthVersusNeed`).
* `base_afu.sv` has the join unit commented out and `FPGAHandler::run` the join itself; the join is
  modelled as `join_afu.sv` and `joinAtATime` describe it.
* The encoder now emits widths 8, 16 and 32 only, while two filters read 4-bit codes; the scan theorem
  is about columns packed at the width their filter reads.

## Model

| member | source | states |
|---|---|---|
| WorkQueue.LockFreeQueue.RunAdd | src/exec/util/WorkQueue.h:79-97 | one statement of `add` does to head, tail, links and the thread's snapshot exactly what the step relation says |
| WorkQueue.LockFreeQueue.RunTake | src/exec/util/WorkQueue.h:99-119 | the same for one statement of `nextElement` |
| WorkQueue.LockFreeQueue.RunTest | src/exec/util/WorkQueue.h:64-66 | the same for the two reads of `isNotEmpty` |
| WorkQueue.LegalHistoryIsFifo | src/exec/util/WorkQueue.h:79-119 | in a legal history the removed nodes followed by the queued ones are the inserted nodes in order |
| WorkQueue.LinkAppends | src/exec/util/WorkQueue.h:85-85 | the link CAS appends one node to the abstract queue and keeps the list well formed |
| WorkQueue.HeadRemoves | src/exec/util/WorkQueue.h:113-114 | the head CAS removes and returns the first element |
| WorkQueue.TailMoves | src/exec/util/WorkQueue.h:88-93 | a tail swing, own or helping, leaves the abstract queue alone |
| WorkQueue.StaleSnapshotsStayValid | src/exec/util/WorkQueue.h:81-104 | what a thread read about linked nodes survives any step of any other thread |
| WorkQueue.InvIsInductive | src/exec/util/WorkQueue.h:79-119 | every enabled step of every thread keeps list, snapshot, ownership and owed-swing invariants |
| WorkQueue.StepRefinesFifo | src/exec/util/WorkQueue.h:79-119 | every step acts on the abstract queue as at most one atomic FIFO operation: only the link CAS of the node being added inserts, only the head CAS removes and hands out, and `add` returns only from its swing |
| WorkQueue.ReachableStates | src/exec/util/WorkQueue.h:79-119 | in every reachable state nothing is lost or duplicated, the inserted nodes are the linked ones in link order, `next` leads from each to the following one and ends in the only NULL, head is not past tail, tail is last or second-last, and a head CAS never installs NULL |
| WorkQueue.AddIsLinearizable | src/exec/util/WorkQueue.h:79-97 | whenever `add` returns, its node was inserted by the link CAS at an instant of that very call |
| WorkQueue.ReturnedAddIsEnqueued | src/exec/util/WorkQueue.h:79-97 | from the return of an `add` on, its node is among the inserted nodes, exactly once |
| WorkQueue.LaggingExactlyWhen | src/exec/util/WorkQueue.h:85-93 | the tail lags if and only if the thread that linked last still owes its swing or that swing was lost to a spurious failure and not made up for |
| WorkQueue.SwingExactly | src/exec/util/WorkQueue.h:88-88 | line 88 moves the tail it expects to the node unless it fails spuriously; nothing but that failure loses a swing, and any move of the tail makes up for it |
| WorkQueue.TailIsLast | src/exec/util/WorkQueue.h:79-97 | over runs in which no such swing fails spuriously, the tail is the last node linked whenever nobody is about to swing it |
| WorkQueue.NullAnswerIsLinearizable | src/exec/util/WorkQueue.h:101-109 | whenever `nextElement` returns NULL the queue was empty at an instant of that very call |
| LockFreedom.RetryMeansProgress | src/exec/util/WorkQueue.h:79-119 | between two visits of a thread to the start of its loop in one call, without a spurious failure of its own, the list has grown or the tail or the head has advanced |
| LockFreedom.StatementsAreBounded | src/exec/util/WorkQueue.h:79-119 | in any stretch of any run a thread executes at most six statements per call it begins, and five per advance of list, tail or head and per spurious failure of its own, besides those left of its call |
| LockFreedom.LockFree | src/exec/util/WorkQueue.h:64-119 | all statements of n threads together are at most (6 + 15 n) times the completed calls plus n, plus five per spurious failure: however threads are scheduled or stopped, those that run complete calls |
| LockFreedom.ChecksCatchOvertaken | src/exec/util/WorkQueue.h:83-104 | a thread goes on from its check to a compare-exchange or to NULL only if the tail (head) it read is still the tail (head), and starts again exactly otherwise |
| NodePool.Thread.ReturnNextNode | src/thread/Thread.h:169-185 | which node a request gets, and what it does to the pool |
| NodePool.NodesAreNeverRecycled | src/thread/Thread.h:60-185 | over any calls, every node handed out is newly allocated and differs from all before |
| QueueDrain.DrainStep | src/thread/FPGAHandler.h:69-80 | every step of the consumer, in the loop or adding outside it, or of any producer keeps the loop invariant; after `isNotEmpty()` true the next `nextElement()` is never NULL |
| QueueDrain.LoopExit | src/thread/FPGAHandler.h:69-80 | when the loop stops at most one element is left, and none if and only if the last tail swing is neither lost nor still owed (with no `add` under way: not lost); then, and only then, every enqueued node has been handled, once, in order |
| QueueDrain.DrainIsSafe | src/thread/FPGAHandler.h:69-80 | in every state of every run from the empty queue: no NULL work unit is used, handled nodes followed by queued ones are the enqueued ones, and an unstopped consumer has a next statement |
| QueueDrain.DrainStopsExactly | src/thread/FPGAHandler.h:69-80 | whenever the loop stops, in any run from any state of it, everything enqueued has been handled if and only if the last tail swing is neither lost nor still owed |
| QueueDrain.CleanDrain | src/thread/FPGAHandler.h:69-80 | if no tail swing fails spuriously and none is pending at the stop, a drain has handled everything enqueued, in order, and leaves the queue empty |
| QueueDrain.LostSwingHidesElement | src/exec/util/WorkQueue.h:64-88 | a run in which one spurious failure leaves a queued element that `isNotEmpty()` denies |
| QueueDrain.DrainTerminates | src/thread/FPGAHandler.h:69-80 | beside any producers, the loop takes at most twelve statements per element queued at the start or enqueued since, ten per start of the loop, a constant, and five per spurious failure of its own |
| QueueDrain.DrainStops | src/thread/FPGAHandler.h:69-80 | from the empty queue: at most 10 statements, 12 per node enqueued, 10 per further start of the loop and 5 per spurious failure |
| Dispatch.EnqueuedInOrder | src/thread/ThreadHandler.h:70-76 | what one thread adds, be it the consumer itself before a drain, is enqueued in the order in which it adds it, behind what was enqueued before |
| Dispatch.DispatchedInOrder | src/thread/FPGAHandler.h:69-80 | a drain handles the units left in the queue and then those added, in order, all of them or, if the last tail swing was lost, all but the last; it handles exactly the added ones exactly when the queue was empty and no swing is left lost |
| Dispatch.AllDispatched | src/thread/FPGAHandler.h:69-80 | on a queue that was empty, if no tail swing fails spuriously, exactly the units added are handled, in order |
| Dispatch.NextDrainMayBegin | src/thread/FPGAHandler.h:208-236 | a drain leaves a state the next can start from, with an empty queue exactly when no tail swing was lost |
| Dispatch.PartitionsInOrder | src/thread/ThreadHandler.h:70-76 | with partitions 0, 1, ... enqueued in turn, those of units left over are sent first and then 0, 1, ... in turn; two or more are sent as they are exactly when nothing was left over and no swing is left lost |
| Dispatch.EndToEndFromQueue | src/thread/FPGAHandler.h:23-91 | from the partitions one thread enqueues, the accelerator thread or another, before a first or a later scan, to the gathered bits: every row of every partition (all but the last, if a swing was lost) has the predicate on its code as its bit, if the write channel was not almost full when its line completed |
| Dispatch.EndToEndJoinFromQueue | src/thread/FPGAHandler.h:96-163 | the same for the pages of foreign keys of a join: the bit is the bitmap's at the row's key |
| Filters.WideUnitResult | src/fpga/operators/ssb/filter_scan/lo_quantity.sv:18-99 | an enabled edge on a cleared unit gives one bit per code and zeros above (also for d_year and lo_discount) |
| Filters.P16IsSlice | src/fpga/operators/filter_scan/hw/rtl/4bits/p16.sv:16-44 | a stage looking at its 64-bit slice computes its 16 bits of the whole-line comparison |
| ScanAfu.ScanUnit.Tick | src/fpga/processing/ssb/hw/rtl/scan_afu.sv:36-438 | one clock edge: every register block reads the old registers and all change at once |
| ScanAfu.ScanUnit.CountLines | src/fpga/processing/ssb/hw/rtl/scan_afu.sv:200-231 | the line counter, request permission and done flag after the edge |
| ScanAfu.ScanUnit.Request | src/fpga/processing/ssb/hw/rtl/scan_afu.sv:237-264 | the read request port after the edge |
| ScanAfu.LineOfByte | src/fpga/processing/ssb/hw/rtl/scan_afu.sv:44-57 | the line address made of a byte address is right: byte o of a line-aligned buffer is byte o mod 64 of line o / 64 of it, in a space of 2^48 bytes |
| ScanAfu.ResetLeadsToStart | src/fpga/processing/ssb/hw/rtl/scan_afu.sv:128-387 | one reset tick leads from any registers to the state runs start from, exactly unless a request has just been issued, a response received, or a partition is announced in that tick |
| ScanAfu.ResetMidRequest | src/fpga/processing/ssb/hw/rtl/scan_afu.sv:237-264 | after a reset right behind a request, the next partition waits for its first line without requesting it |
| ScanSession.ResultIsFilter | src/fpga/processing/ssb/hw/rtl/scan_afu.sv:357-387 | when a line is done, the word on the write port is the selected filter of the line |
| ScanSession.CompletingCycle | src/fpga/processing/ssb/hw/rtl/scan_afu.sv:200-387 | a completing line goes to its own place in the result buffer with its comparison, valid exactly if the write channel is not almost full |
| ScanSession.PartitionTraffic | src/fpga/processing/ssb/hw/rtl/scan_afu.sv:128-438 | in every reachable state of a partition: at most one read outstanding, reads are lines 0, 1, ... of the buffer, completed lines carry the filter of the line read, done exactly when all are completed |
| ScanSession.RunWrites | src/fpga/processing/ssb/hw/rtl/scan_afu.sv:357-387 | over a run, the issued writes are exactly the completed lines, each once, in order, that found the write channel not almost full in the cycle in which they completed |
| ScanSession.CascadeRefinesFilter | src/fpga/processing/data_parallelism/hw/rtl/scan_afu.sv:164-651 | in every reachable state the finished stages are a prefix holding that prefix of the 128-way comparison of a stable line, and all are clear between lines |
| ScanSession.CascadeAdvance | src/fpga/processing/data_parallelism/hw/rtl/scan_afu.sv:512-624 | one tick finishes exactly one more stage and changes no finished one |
| ScanSession.DoneExactlyWhen | src/fpga/processing/ssb/hw/rtl/scan_afu.sv:128-264 | a partition is done if and only if its filter is 0, 1 or 2, it has 1 to 2^31 lines and 7 unstalled cycles per line have passed; in the cascade design 1 to 64 lines and 14 cycles per line |
| ScanSession.ReturnsToWaiting | src/fpga/processing/ssb/hw/rtl/scan_afu.sv:157-169 | a done partition is left for WAITING in the next cycle, with no further traffic |
| ScanSystem.CsrManager.Clock | src/fpga/base/hw/rtl/csr_mgr.sv:179-304 | a CSR write raises the enable of its own index for one cycle; a read samples the done flag |
| ScanSystem.PulseExactlyWhen | src/fpga/base/hw/rtl/csr_mgr.sv:179-304 | exactly the eight application CSRs from index 32 on are pulsed, each by a write to it |
| ScanSystem.System.Step | src/thread/FPGAHandler.h:63-80 | one tick of host, CSR registers, accelerator and memory together |
| ScanSystem.SysStep | src/thread/FPGAHandler.h:63-80 | every disciplined tick keeps the invariant tying host position, registers and traffic |
| ScanSystem.HandshakeIsSafe | src/thread/FPGAHandler.h:69-80 | over whole runs, of a first or a later scan: a new partition is only seen while waiting, a poll that reads done is about its own page, every write lies in the page it answers, and a finished host has all pages done |
| ScanSystem.NextScanMayBegin | src/thread/FPGAHandler.h:208-236 | the end of a scan is a state the next can begin from without a reset, with the done flag still up |
| ScanSystem.IssuedExactlyWhen | src/fpga/processing/ssb/hw/rtl/scan_afu.sv:357-387 | in every reachable state, line j of the k-th page sent was issued if and only if the write channel was not almost full in the tick that completed it |
| ScanPipeline.NoFullNoBlock | src/fpga/processing/ssb/hw/rtl/scan_afu.sv:357-387 | if the write channel is never almost full when a line completes, every line is issued |
| ScanSystem.LateAddressMisplaces | src/thread/FPGAHandler.h:69-80 | a line that completes before its page's result address is sent goes to the result buffer of the page before |
| ScanProgress.LateAddressRun | src/thread/FPGAHandler.h:69-80 | for every page, a run from the start, disciplined up to there, in which that is about to happen |
| ScanSession.FirstCompletion | src/fpga/processing/ssb/hw/rtl/scan_afu.sv:128-231 | no line completes before the sixth (cascade: thirteenth) unstalled cycle after acceptance: the time the host has to deliver the result address |
| ScanProgress.TickProgress | src/thread/FPGAHandler.h:63-80 | every disciplined tick of the whole system uses up exactly the moves it makes out of a fixed budget |
| ScanProgress.FinishedExactlyWhen | src/thread/FPGAHandler.h:63-80 | the host is through if and only if 3 + pages * (7 * lines + 5) moves have been made |
| ScanProgress.QueryTerminates | src/fpga/processing/ssb/sw/afu_handler.cpp:58-81 | no poll loops forever: after that many ticks without back-pressure, with the oldest read answered and the host's operation arriving, the query is through, whatever happens in between |
| ScanSystem.StaleExactlyInTransit | src/fpga/processing/ssb/sw/afu_handler.cpp:58-81 | a poll that reads the flag up reads another page's if and only if the address pulse is still on its way; after an earlier page it is always up then |
| ScanProgress.StaleExactlyWhen | src/fpga/processing/ssb/sw/afu_handler.cpp:58-81 | over whole runs, a poll would read another page's flag if and only if the pulse is in transit and the page is not the first or an earlier scan left the flag up |
| ScanSystem.StalePollIsNear | src/fpga/processing/ssb/sw/afu_handler.cpp:58-81 | from every state in which the host sends a page with the flag up, two disciplined ticks lead to a poll that would read another page's flag |
| ScanProgress.StalePollRun | src/fpga/processing/ssb/sw/afu_handler.cpp:58-81 | for every page but the first, and for the first when the flag was up at the start, a run from the start to such a poll |
| JoinAfu.JoinUnit.Tick | src/fpga/processing/ssb/hw/rtl/join_afu.sv:31-352 | one clock edge of the join accelerator and its lookup unit |
| JoinAfu.ResetLeadsToStart | src/fpga/processing/ssb/hw/rtl/join_afu.sv:140-302 | the same for the join unit, whose `cl_processed` a reset does not clear either |
| JoinAfu.ProbeAnswers | src/fpga/operators/ssb/semi_join/lineorder_date.sv:38-79 | a probing edge answers each of 32 keys inside the register file from the bitmap, zeros above |
| JoinSession.LoadedBit | src/fpga/operators/ssb/semi_join/lineorder_date.sv:25-33 | after n lines the register file holds exactly those lines' bits at their positions; lines past its end change nothing |
| JoinSession.CompleteCycle | src/fpga/processing/ssb/hw/rtl/join_afu.sv:140-302 | a completing key line is answered in its place, a bitmap line writes nothing |
| JoinSession.JoinSessionCycle | src/fpga/processing/ssb/hw/rtl/join_afu.sv:140-319 | every cycle of either phase keeps reads in order, the register file right and answers in place |
| JoinSession.JoinDoneExactlyWhen | src/fpga/processing/ssb/hw/rtl/join_afu.sv:140-222 | in either phase, or with neither or both selected, a partition is done if and only if it has at least one line and 7 unstalled cycles per line have passed |
| JoinSession.RunJoinSession | src/fpga/processing/ssb/hw/rtl/join_afu.sv:140-319 | in every reachable state of an accepted partition the reads run through its buffer in order, the register file holds the lines loaded so far, and answers are in place |
| JoinSystem.JoinSysStep | src/thread/FPGAHandler.h:96-149 | every disciplined tick of host, CSRs and join accelerator keeps the system invariant through both phases |
| JoinSystem.JoinIsSafe | src/thread/FPGAHandler.h:96-149 | over whole runs: partitions are only announced to a waiting unit, a poll that reads done is about its own partition, reads run through the bitmap and the pages in order, nothing is written before the bitmap is loaded, every write answers a key line in its place from the loaded bitmap, and at the end every key line has been answered once |
| JoinSystem.MapLinesAre | src/thread/FPGAHandler.h:96-98 | line j of the bitmap is read exactly if it begins no later than the bitmap ends, so one more than needed when the size is a multiple of 512 |
| JoinSystem.KeysIssuedExactlyWhen | src/fpga/processing/ssb/hw/rtl/join_afu.sv:276-302 | the answers to line j of the k-th page of keys were issued if and only if the write channel was not almost full in the tick that completed it |
| JoinPipeline.NoFullNoJoinBlock | src/fpga/processing/ssb/hw/rtl/join_afu.sv:276-302 | if the write channel is never almost full when a line of keys completes, every line of answers is issued |
| JoinTermination.JoinTickProgress | src/thread/FPGAHandler.h:96-149 | every disciplined tick uses up exactly the moves it makes out of a fixed budget |
| JoinTermination.JoinFinishedExactlyWhen | src/thread/FPGAHandler.h:96-149 | the host is through if and only if 9 + 7 * bitmap lines + 453 * pages moves have been made |
| JoinTermination.JoinQueryTerminates | src/fpga/processing/ssb/sw/afu_handler.cpp:83-97 | neither polling loop runs forever: after that many ticks without back-pressure, with the oldest read answered and the host's operation arriving, the join is through |
| JoinSystem.JoinStalePoll | src/fpga/processing/ssb/sw/afu_handler.cpp:83-97 | a flag read up is about the partition in hand if and only if its address pulse has landed |
| JoinSystem.StaleKeysPollIsNear | src/fpga/processing/ssb/sw/afu_handler.cpp:83-97 | from every state in which the host sends a page of keys, two disciplined ticks lead to a poll that would take the bitmap's or the previous page's flag |
| JoinSystem.StaleMapPollRun | src/fpga/processing/ssb/sw/afu_handler.cpp:83-97 | when the flag was up at reset, a run of four ticks from the start to a poll that would take it for the bitmap's |
| BlockRead.BlockReader.Tick | src/fpga/processing/block_rw/hw/rtl/block_read.sv:221-421 | one clock edge of the block reader |
| BlockRead.BlockReads | src/fpga/processing/block_rw/hw/rtl/block_read.sv:319-421 | in every reachable state at most one request is outstanding, none coincides with a response, requests are lines 0, 1, ... in order, and `reads_done` means all were made |
| BlockRead.BlockBytes | src/fpga/processing/block_rw/hw/rtl/block_read.sv:221-421 | the lines requested are the block's bytes from the byte address written to CSR 3 on |
| BlockRead.ResetStopsReader | src/fpga/processing/block_rw/hw/rtl/block_read.sv:319-421 | a reset tick leaves no request wanted or on the port |
| BlockRead.ReadsDoneHolds | src/fpga/processing/block_rw/hw/rtl/block_read.sv:404-421 | until the next block the flag stays up and no request follows |
| BlockRead.SameReadsAsScan | src/fpga/processing/block_rw/hw/rtl/block_read.sv:319-421 | the reader makes the same requests as the scan state machine for the same block |
| BlockRead.BlockDoneExactlyWhen | src/fpga/processing/block_rw/hw/rtl/block_read.sv:319-421 | the block is read exactly from the third unstalled cycle per line on |
| Compressor.Compressor.ParseColumn | src/data/compressor/Compressor.cpp:13-63 | every value's code is the number of distinct smaller values; `distinct_keys` grows by the number of new values, so from -1 it ends one below their number |
| Compressor.RankIsMonotone | src/data/compressor/Compressor.cpp:46-59 | comparing codes is comparing values |
| Compressor.RankIsOnto | src/data/compressor/Compressor.cpp:46-59 | every number below the number of values is some value's code |
| Compressor.Compressor.WriteCompressedValues | src/data/compressor/Compressor.cpp:65-99 | the encoded column has each row's code in row order (0 for a value never parsed), and writing the parsed file changes no code |
| Compressor.Compressor.WriteMetaData | src/data/compressor/Compressor.cpp:101-120 | the double-logarithm computation yields 7, 15 or 31 with steps at 128 and 32768 |
| Compressor.CodesFit | src/data/Column.h:86-86 | for 2 to 2^31 values every code is below two to the column's width |
| Encoding.WidthExactlyWhen | src/data/Column.h:86-86 | the column's width is 8 up to 129 values, 16 from 130 to 32769 and 32 from 32770 on, so one the store has |
| Encoding.StoreColumn | src/data/compressor/Compressor.cpp:13-120 | from a file of values: the column has that width and as many pages as it requires, each packed from its part of the ranks of the values |
| Encoding.RowIsStored | src/data/Column.h:148-160 | a row's slot decodes to the code of the row's value and of no other value |
| Compressor.WidthVersusNeed | src/data/compressor/Compressor.cpp:101-120 | eight bits are chosen exactly up to 129 values although they would do exactly up to 256 |
| Column.PagesCover | src/data/Column.h:206-214 | no surplus page, and all rows covered except exactly at four bits and 1 modulo 8192 rows |
| Column.RowPlace | src/data/Column.h:128-143 | every row lies in exactly one page, and that page is required except in the case above |
| Column.Column.InitializePageAlignedPartitions | src/data/Column.h:128-143 | adds as many new, distinct partitions as pages are required, numbered in order, each with the slots of a page |
| Column.Column.CompressColumn | src/data/Column.h:148-160 | page p is packed from exactly its own codes of the one stream, and the stream ends where the last page ends |
| Partition.Partition.InitializePageAlignedPartition | src/data/Partition.h:43-56 | the array has a word for every slot |
| Partition.Partition.Compress | src/data/Partition.h:58-103 | the taken codes are packed from word 0 on, later words keep their content, all writes stay inside the array, and the stream advances by the codes taken |
| Partition.PackedNext | src/data/Partition.h:72-98 | one more code changes only the last word or starts a new one |
| RoundTrip.RoundTripExactlyWhenFit | src/api/JobWrapper.h:264-275 | decoding the packed words returns the codes if and only if every code fits the width |
| RoundTrip.DecodeBlock | src/api/JobWrapper.h:264-275 | the decoding loop returns all slots in order |
| Lines.LineField | src/data/Partition.h:58-103 | a lane of a cache line is a slot of one of its eight words |
| JobWrapper.JobWrapper.ReserveResultBuffer | src/api/JobWrapper.h:59-86 | slice length and array size |
| JobWrapper.SliceIs | src/api/JobWrapper.h:59-86 | a slice has a bit for every row of a full page and none too many; of a smaller column, for every row with a word to spare at most |
| JobWrapper.LinesAsked | src/thread/FPGAHandler.h:47-61 | line j is asked for exactly if it is one of a page's 64 and begins before the column's end |
| JobWrapper.JobWrapper.CopyFPGAWriteBuffer | src/api/JobWrapper.h:136-161 | the result words of each line, in order, replace the array's words from the partition's offset on and nothing else |
| JobWrapper.JobWrapper.CopyJoinWriteBuffer | src/api/JobWrapper.h:89-134 | word i of the slice is the low halves of result lines 2i and 2i+1; nothing else changes |
| JobWrapper.JobWrapper.CountBitResults | src/api/JobWrapper.h:163-180 | the number of ones in the processed partitions' slices |
| JobWrapper.SlicesDisjoint | src/api/JobWrapper.h:136-161 | slices of different partitions share no word |
| JobWrapper.CopyStaysInSlice | src/thread/FPGAHandler.h:47-61 | exactly when a partition's copy stays inside its slice |
| JobWrapper.CopyStaysInArray | src/api/JobWrapper.h:59-86 | exactly when it stays inside the array: under the same condition, since a column below a page has one partition |
| ResultMemory.GroupLands | src/fpga/processing/ssb/hw/rtl/scan_afu.sv:357-438 | what memory holds at the address of an issued line is the last line issued to that address, itself or a later one |
| ScanPipeline.ReadsSeeInputs | src/fpga/processing/ssb/hw/rtl/scan_afu.sv:237-297 | in every reachable state, lines outside the result buffers still hold what they held at the start, so a read never sees the accelerator's own writes |
| ScanPipeline.InputsStay | src/fpga/processing/ssb/hw/rtl/scan_afu.sv:237-297 | an input buffer that shares no byte with a result buffer holds its words, byte for byte, in every reachable state |
| JoinPipeline.JoinReadsSeeInputs | src/fpga/processing/ssb/hw/rtl/join_afu.sv:228-302 | the same for the join |
| JoinPipeline.JoinInputsStay | src/fpga/processing/ssb/hw/rtl/join_afu.sv:228-302 | the same for the join |
| ScanPipeline.GatherResults | src/thread/FPGAHandler.h:86-91 | the gathering loop leaves in every partition's slice that partition's result words, also where a copy is longer than its slice, as long as it stays inside the array |
| ScanPipeline.QueryMeaning | src/api/ScanApi.h:43-49 | the filter evaluated for a query's predicate word, with the upper bound in the high nibble for ranges |
| ScanPipeline.EndToEndScan | src/thread/FPGAHandler.h:23-91 | after any whole run, with pages and results in line-aligned buffers of byte-addressed memory and partitions sent in any order, even twice, the bit of a row equals the predicate on the row's code, if its partition was sent and the write channel was not almost full when its line completed |
| ScanPipeline.EndToEndRaw | src/thread/FPGAHandler.h:23-91 | for a column of raw values encoded by rank and a selection by raw values, the bit of a row says whether its raw value qualifies |
| ScanPipeline.CountIsMatching | src/api/JobWrapper.h:163-180 | with full partitions, all sent, and a write channel that is never almost full when a line completes, the count is the number of qualifying rows |
| ScanPipeline.RawMeaning | src/data/compressor/Compressor.cpp:46-59 | each accelerator comparison on codes means the same comparison on raw values |
| JoinPipeline.GatherJoinResults | src/thread/FPGAHandler.h:160-163 | the merging loop fills every partition's slice without disturbing another |
| JoinPipeline.EndToEndJoin | src/thread/FPGAHandler.h:96-163 | after any whole run, with bitmap, pages and results in line-aligned buffers of byte-addressed memory and partitions sent in any order, the bit of a row equals the bitmap's bit at the row's foreign key, if its partition was sent and the write channel was not almost full when its line completed |
| SimdScan.SimdScan8 | src/api/ScanApi.cpp:53-91 | the slice holds the signed comparison of every byte, all other words are unchanged, and the returned count is the number of ones written |
| SimdScan.AgreeExactlyOnSameSide | src/api/ScanApi.cpp:53-91 | the SIMD words equal the unsigned filter's words if and only if every code is on the predicate's side of 128 |
| SimdScan.SimdAgreesWithAccelerator | src/fpga/operators/ssb/filter_scan/lo_quantity.sv:18-99 | on a full page the words gathered from the accelerator equal the SIMD words under exactly that condition |
| Barrier.PThreadBarrier.Arrive | src/thread/util/PThreadBarrier.h:57-70 | one statement up to blocking or tripping does what the step relation says |
| Barrier.PThreadBarrier.Depart | src/thread/util/PThreadBarrier.h:65-73 | the same for re-acquiring the mutex and returning |
| Barrier.InvIsInductive | src/thread/util/PThreadBarrier.h:57-74 | every transition keeps mutual exclusion, the waiter count and the generations' books |
| Barrier.AtRest | src/thread/util/PThreadBarrier.h:57-74 | whenever the mutex is free, `count` is below `tripCount` and equals the blocked waiters of the current generation plus its calls woken spuriously |
| Barrier.ReturnsOnlyAfterAllArrived | src/thread/util/PThreadBarrier.h:57-74 | a call returns before `tripCount` calls of its generation arrived if and only if it was woken spuriously in a generation still open |
| Barrier.ExactlyOneReturnsOne | src/thread/util/PThreadBarrier.h:61-72 | over unbounded reuse, counting every return however the call was woken: at most one call of a generation returns 1, exactly one has once it has tripped and the mutex is free, and every other return is 0 |
| Barrier.LastArrivalReturnsOne | src/thread/util/PThreadBarrier.h:57-70 | the call that returns 1 is the one whose arrival was its generation's last |
| Barrier.CallArrivesOnce | src/thread/util/PThreadBarrier.h:57-74 | between its call and its return a thread arrives exactly once, and its return carries the generation it arrived in |
| Barrier.ArrivedAreAccountedFor | src/thread/util/PThreadBarrier.h:57-74 | in every reachable state the calls that arrived in a generation are those that have returned and those still inside |
| Barrier.EveryCallReturns | src/thread/util/PThreadBarrier.h:61-73 | of a generation that has tripped, the calls still inside have been let go, and once none is inside all n have returned, one of them 1 |
| Barrier.ReleasedReturns | src/thread/util/PThreadBarrier.h:70-73 | a call let go returns 0 with its generation on exactly the second of its own moves, whatever happens in between |
| Barrier.MutexIsFreed | src/thread/util/PThreadBarrier.h:57-74 | whoever holds the mutex can move and frees it within five of its moves, which nobody delays; while it is free, whoever waits for it can move |
| Barrier.SpuriousWakeReturnsEarly | src/thread/util/PThreadBarrier.h:70-72 | any blocked call can, after one spurious wake-up, return 0 in two more statements before its generation is complete |
| Barrier.EarlyReturnRun | src/thread/util/PThreadBarrier.h:57-74 | a run from the initial state, two parties, in which a call returns although the second party never arrived |

## Left out

- Relaxed memory ordering: the queue's atomics are taken as sequentially consistent; weak compare-exchange may still fail spuriously.
- Freeing queue nodes and copying a queue: nodes are only ever allocated during a query.
- Overlapping input and result buffers: reads are answered from the memory the run began with, which `ScanPipeline.ReadsSeeInputs` and `JoinPipeline.JoinReadsSeeInputs` show to be the current one as long as the buffers are separate.
- Write responses: the host does not wait for them (its check is commented out) and `write_processed` feeds nothing; the end-to-end theorems are about the memory once all issued writes have been performed in issue order.
- Runs with a reset in the middle: they start with the unit waiting; what one reset tick leads to is stated from any registers.
- Selecting the unit by `query_state` (`base_afu.sv`): the unit under consideration is active throughout.
- Timing of CSR traffic: a poll is sampled at least two cycles after the enable pulse of the address, and the result address lands before the first line completes; the host theorems are about runs of that kind. The stale-poll and late-address lemmas say what the first violation does, not what follows from it.
- Driver, MMIO mapping, buffer allocation and address translation: foreign code; memory is 2^42 lines of 64 bytes, and buffers are taken as the driver allocates them, line-aligned.
- `int` overflow of `num_of_bits * colSize`, and partitions of zero size, whose first word has no array element.
- RoundTrip.DecodeBlock: 32-bit codes are excluded, because the source's `int` mask overflows at that width; `RoundTripExactlyWhenFit` covers them with the mask as intended.
- Compressor.Compressor.WriteMetaData: one distinct value is excluded, because the source takes the logarithm of zero.
- `CompressValue` of a query constant that is not in the dictionary: queries are by values the column has.
- The block reader's filters and its STATE register, which no request depends on.
- File, string and socket handling: values and codes are sequences.
- SimdScan.SimdScan8: line 68 of the source uses the value of a result word as an address; the model takes the byte view its comment describes.
- `simdScan4`, `simdScan16`, aggregation (`discount_sum`, `scan_join_agg.sv`) and text splitting: unfinished or printing only.
- The second enqueuing routine `ProcessingUnit::addWorkItems(Column*, ...)`, which leaves out the last partition.
- Dispatch.EndToEndFromQueue: units of several threads adding at once are dispatched in the order of their link CASes; the order of partitions is stated for one adding thread. `ScanPipeline.EndToEndScan` holds for any order.
- JobWrapper.JobWrapper.CopyFPGAWriteBuffer: a copy that leaves the array is excluded, because what it overwrites is not part of this model; `CopyStaysInArray` says exactly when that happens.
- ScanPipeline.GatherResults: the same for the loop over partitions.
- Slots past the last row of a partly filled page: they hold whatever memory held, so bits are stated for valid rows and counts for full pages.
- Barrier: `tripCount` is taken within `int`, and the failure returns of mutex and condition-variable initialisation and destruction are not modelled.
