# A verified model of the XDMA double-buffer driver

The repository is the Xilinx XDMA scatter-gather driver with an added ping-pong double buffer, an
LFSR stream checker for the captured data, and a few smaller parts. This project models its hard
core in Dafny and proves what that core is for. Run `dafny verify dfyconfig.toml` in this directory.

## What is modelled

- **From a request to descriptors.** `UserBuffer` (page list of a user buffer), `Request` (software
  descriptors), `Ring` (division of a request over the descriptor ring), `Descriptors` and
  `AdjacentWalk` (the hardware descriptor, its control word and the burst prefetch), `Chains`
  (executing all chains of a request is one linear copy), `ChainRanges` (where the descriptors of a
  request point in every mode, streams included), `RingWrites` (the whole ring after a request).
- **Requests folded onto a window.** `Aperture` (windows, the mask, the walk of one pass),
  `AperturePasses` (when one pass is right), `ApertureRuns` (runs of passes), `ApertureBuild` (the
  imperative build loop and what its chains copy).
- **The engine.** `EngineModel` gives submission and one service pass as functions on values;
  `EngineRuns` runs them against a hardware model with history; `LibXdma` is the imperative engine
  (`XdmaEngine`, `Transfer`), each method proved against those functions. `BlockingLoop` is the
  blocking submission as a value, with waits of any number of service passes; `Submit` and `Queued`
  are the blocking and the queued submission loops.
- **The double buffer.** `DbufRuns` is the session state machine, in which START, the reader, the
  hardware and the callback are threads of their own and the hardware takes its target from the
  descriptor that it executes; `DbufRing` adds the descriptor ring under it, `DbufWitness` two runs
  outside the assumptions; `SlotRing` says which buffer each queued descriptor stores to; `CdevSgdma` is
  the device class whose methods carry out the session's events.
- **Independent parts.** `XdmaThread` (polling threads), `CdevXvc` (virtual JTAG cable), `Lfsr` and
  `LfsrReport` (stream checker and loss report).
- `Words` and `LinearCopy` hold fixed-width arithmetic, byte memories and address ranges.

Values in C variables of 32 or 64 bits that can wrap are written with `U32` and `U64`. Locked regions
are atomic steps. The descriptor format is that of Xilinx PG195, section "Descriptors".

## Main results

1. A session delivers exactly the captured buffers, in order, none lost or repeated, in every
   interleaving in which no read overtakes START and slots take at most half the ring
   (`DbufRing.DeliveredIsPrefix`, `DbufRing.SlotsExclusive`); no two queued transfers then share a
   descriptor, although nothing checks it (`DbufRing.SessionRingDisjoint`). An event keeps the order
   exactly when it is of that kind (`DbufRuns.EventKeepsExactly`). The imperative device keeps to the
   session (`CdevSgdma.DoubleBuffer`), and the descriptors in the ring store to their own slot's buffer
   (`SlotRing.SlotCovered`, `CdevSgdma.DoubleBuffer.Store`).
2. Executing all chains of a request, however it is divided and wherever it lies in the ring, is one
   linear copy (`Chains.RequestIsOneCopy`), also when the engine prefetches in bursts
   (`AdjacentWalk.BurstsRefinePointers`, `Chains.EngineRunIsOneCopy`). In every mode, streams included,
   the host side of its descriptors is the scatter list (`ChainRanges.RequestPoints`).
3. In every run the engine is running iff work is queued, retirement is FIFO and once
   (`EngineRuns.RunsKeepInv`, `EngineRuns.RetiredInOrder`), and the callbacks are exactly those of the
   retired requests (`EngineRuns.CallbacksExact`). One pass completes exactly the longest prefix that
   the completion count covers (`EngineModel.PassCompletesLongestPrefix`). With eop_flush a transfer
   leaves early exactly at a packet end (`EngineRuns.EopRetiresHead`, `EngineRuns.LeavesOnEopOrComplete`).
4. The blocking loop counts the bytes of the completed prefix, on a stream read the written-back lengths
   of all completed descriptors, leaks exactly a refused transfer's descriptors and submits exactly the
   request's (`BlockingLoop.CountsCompletedPrefix`, `BlockingLoop.StreamCounts`,
   `BlockingLoop.LeaksExactly`, `Submit.XferSubmit`).
5. An aperture request is copied right exactly when every pass starts in its first scatter-list entry
   with the right mask (`ApertureRuns.RequestRightExactly`, `ApertureBuild.ApertureIsFoldedCopy`).
6. The stream checker reads every record field from its own bytes and reports exactly the transitions
   that are wrong (`LfsrReport.ParseBytes`, `LfsrReport.ReportedExactly`).

## Where the code does less than it says

Each of these is kept as the code has it, with the exact condition proved for all inputs.

- Mapping a user buffer succeeds only below 4 GiB: an entry's byte count is a 32-bit minimum
  (`UserBuffer.LeftoverExactly`; `UserBuffer.FourGiBWitness` is the first failing length).
- The slots reserved for one scatter-list entry suffice exactly when the 32-bit rounding sum does not
  wrap (`Request.ReservedEnough`); a request is accepted exactly when all its pieces fit the sum
  (`Request.InitRequest`).
- The two transfer records of a queued request suffice exactly up to `2 * desc_max - desc_idx`
  descriptors (`Ring.TwoTransfersSuffice`); the loop has no bound check of its own.
- A new allocation is disjoint from the queued ones exactly when both fit the ring together
  (`Ring.AllocationDisjoint`); `desc_used` is never compared with `desc_max`. Slots of more than half
  a ring therefore overwrite each other's descriptors (`DbufWitness.OversizedSlotsCollide`).
- START makes the device active before it has queued both slots. A read in between reorders the
  buffers (`DbufWitness.EarlyReadReorders`); the exact condition is `DbufRuns.EventSafe`.
- A service pass keeps the engine and the hardware in agreement exactly under `EngineRuns.PassSafe`
  (`EngineRuns.PassKeepsExactly`): with a zero count, or with BUSY still set, it may not.
- `dbuf_io_done` says that an error stops the double buffer; it is always called with 0, also after a
  failed transfer (`EngineRuns.FailureFiresCallback`). "Filled" therefore means "retired".
- A refused submission leaves its descriptors counted in `desc_used` (`BlockingLoop.LeaksExactly`), and
  a completed transfer of 4 GiB or more counts too few bytes (`BlockingLoop.CountsCompletedPrefix`).
- A packet end on a transfer's last descriptor does not end the request (`BlockingLoop.EopEndsRequest`).
- A further pass over an aperture request walks the scatter list from its first entry again, and takes
  its place in the window by a mask. It is right exactly when it starts in the first entry with a mask
  equal to the remainder (`AperturePasses.PassExactly`); on window counts and room, the whole request is
  right exactly under `ApertureRuns.Divides` (`ApertureRuns.RequestRightExactly`). Otherwise it reads
  other bytes, or runs off the ring with nothing to build (`ApertureRuns.SecondPass`,
  `ApertureRuns.NothingBuiltExactly`).
- The chosen polling thread is least loaded exactly under `XdmaThread.PickedLeastExactly`, in every
  arrangement exactly under `XdmaThread.AlwaysLeastExactly`, and every assignment of loads comes about
  (`XdmaThread.EveryLoadReached`). With additions alone loads stay even (`XdmaThread.AddRunIsEven`).
- The virtual cable's bit counter never reaches a total above 2^32 - 32 (`CdevXvc.CounterReaches`), and
  above 2^32 - 8 the computed buffer size is 0 (`CdevXvc.TotalBytesExactly`). Between the two, an
  allocation of three buffers of half a gigabyte comes before the loop.
- `_u32_to_signed` is two's complement exactly outside (2^30, 2^31) (`LfsrReport.SignedFaithful`).
- A boundary check with buffers of less than one record ends in a division error at the first broken
  transition (`LfsrReport.CheckBufferBoundaries`).

## Assumptions about the environment

- The hardware stops after a chain's last descriptor and completes no more descriptors than the chain
  has; results are written back in order (`EngineRuns.Enabled`).
- Service runs in interrupt mode. Session runs let a pass happen only under `PassSafe`.
- A double-buffer session starts on an idle engine and has one reader. No read gets past its wait before
  START has queued both slots (`DbufRuns.EventSafe` is the exact form), slots are full-size and take at
  most half the ring of descriptors, and every submission is accepted. Its engine reads from the device,
  its two coherent buffers are separate pieces of bus memory, and the hardware stores only what the
  executing descriptor names.
- `desc_blen_max` is positive. The length of an aperture request is below 4 GiB, its window and one more
  piece end below 2^64, and its scatter list has no empty entry and names no byte twice.

## Model

| member | source | states |
|---|---|---|
| UserBuffer.MapUserBuf | xdma/cdev_sgdma.c:510-587 | succeeds iff pinning delivers every page, no page repeats its neighbour and the length is below 4 GiB; then the entries cover [buf, buf+len) in order, entry k in frame k, the first from the buffer's offset, all but the last to the end of their page |
| UserBuffer.FillPages | xdma/cdev_sgdma.c:560-582 | the page loop leaves over exactly PageLeft bytes, none below 4 GiB, where the entries concatenate to the buffer, and some from 4 GiB on |
| UserBuffer.HasDuplicate | xdma/cdev_sgdma.c:546-554 | finds a page equal to its neighbour iff there is one |
| UserBuffer.LeftoverExactly | xdma/cdev_sgdma.c:560-582 | entering every page leaves nothing over iff the length is below 4 GiB |
| UserBuffer.FourGiBWitness | xdma/cdev_sgdma.c:560-582 | a 4 GiB buffer at address 0 gets the full page count, but after every page all of it is still left, so the mapping fails |
| Request.SplitFaithful | xdma/libxdma.c:3134-3144 | an entry's pieces concatenate to it, number ceil(len/blen), and have lengths 1..blen |
| Request.PiecesFaithful | xdma/libxdma.c:3125-3147 | the software descriptors of a scatter list denote the same bytes in the same order, sum of ceil(len/blen) pieces of bounded length |
| Request.ReservedEnough | xdma/libxdma.c:3106-3114 | one entry's reserved slots hold its pieces iff len + blen - 1 does not wrap or the entry is a single piece; then they are 1 for a single piece and one to spare for more |
| Request.SlotsEnough | xdma/libxdma.c:3106-3116 | a list without a wrapping entry has at most as many pieces as counted slots |
| Request.SlotBound | xdma/libxdma.c:3106-3116 | the counting pass adds up the reservations of all entries |
| Request.InitRequest | xdma/libxdma.c:3099-3155 | succeeds iff the list has at most as many pieces as counted slots; then it holds exactly the pieces, with the total length |
| Request.FillEntry | xdma/libxdma.c:3132-3145 | the inner loop stores exactly one entry's pieces from its index on |
| Descriptors.AdjacentDecodes | xdma/libxdma.c:2330-2338 | setting the adjacent count keeps magic and flags, and the count reads back iff no stale count bit shows through the mask |
| Descriptors.BuiltDecodes | xdma/libxdma.c:2264-2400 | every field of a built descriptor decodes to the address, length, flags, adjacency and next pointer it was built from; STOPPED and EOP are on the last only, COMPLETED on the last and with eop_flush on all, under the magic number |
| AdjacentWalk.BurstsRefinePointers | xdma/libxdma.c:648-664 | the burst walk from first_desc_adjacent visits exactly the chain, once and in order, like the pointer walk; every burst stays in its 64-descriptor block and page and is as long as block and chain allow |
| AdjacentWalk.AdjacentIsFullBurst | xdma/libxdma.c:648-664 | the stored adjacent count is the number of descriptors after the next one up to the block's or the chain's end |
| AdjacentWalk.FullBurstIsMaximal | xdma/libxdma.c:3024-3033 | a burst of that length does not leave its block and could not be longer |
| Chains.TransferIsOneCopy | xdma/libxdma.c:2925-2961 | executing one transfer's descriptors is one linear copy of its pieces |
| Chains.RequestIsOneCopy | xdma/libxdma.c:2925-3040 | for every scatter list, division into transfers, ring position, endpoint address and direction, executing all descriptors is one linear copy |
| Chains.RequestDelivers | xdma/libxdma.c:2925-3040 | what that copy leaves in both memories, byte by byte, and what it does not touch |
| Chains.EngineRunIsOneCopy | xdma/libxdma.c:744-760 | the burst-prefetching engine started on a built chain performs that copy |
| ChainRanges.RequestPoints | xdma/libxdma.c:2925-2961 | for every mode, division and ring position: the host ranges of a request's descriptors are its scatter list, byte for byte; a stream read's sources are the result slots of its own ring entries; else the endpoint side is consecutive from the address on, or fixed there |
| RingWrites.RingAfterAt | xdma/libxdma.c:2964-3040 | once all transfers of a request are built at disjoint places, each place holds that transfer's own descriptors |
| RingWrites.RingAfterOutside | xdma/libxdma.c:2964-3040 | no other entry of the ring has changed |
| Ring.CarveFacts | xdma/libxdma.c:2964-3027 | carving covers the request without gaps modulo desc_max, never wraps inside a transfer, and takes 1 + ceil(max(0, n-(R-d))/R) transfers |
| Ring.TwoTransfersSuffice | xdma/libxdma.h:480-481 | at most two transfers iff n <= 2R - d; hence always for n <= R |
| Ring.AllocationDisjoint | xdma/libxdma.c:2974-3000 | a new transfer shares no descriptor with any queued one iff queued plus new descriptors fit the ring |
| Ring.RingRunsDisjoint | xdma/libxdma.c:2964-3027 | over every run of allocations that fit and FIFO retirements, queued transfers are pairwise disjoint |
| EngineModel.PassCompletesLongestPrefix | xdma/libxdma.c:828-1023 | one pass completes exactly the longest prefix of total at most C; a remainder fails the next transfer with that count; the rest is untouched |
| EngineModel.LongestExists | xdma/libxdma.c:828-885 | such a prefix exists for every queue and count |
| EngineModel.LongestUnique | xdma/libxdma.c:828-885 | and there is only one |
| EngineModel.ServiceDrains | xdma/libxdma.c:1183-1202 | a pass with a non-zero count is the list loop and the judgement, then resume |
| EngineModel.ServiceIdle | xdma/libxdma.c:1132-1161 | a pass on a stopped engine or with a zero count retires nothing |
| EngineRuns.RunsKeepInv | xdma/libxdma.c:1055-1203 | in every reachable state the engine runs iff its queue is non-empty, the run is the head's, and submitted = retired ++ queued |
| EngineRuns.RetiredInOrder | xdma/libxdma.c:828-1023 | retirement is FIFO and each transfer is retired once |
| EngineRuns.PassKeepsExactly | xdma/libxdma.c:1055-1161 | a pass keeps the invariant iff PassSafe holds before it |
| EngineRuns.UnsafePassBreaks | xdma/libxdma.c:1154-1161 | an unsafe pass always leaves driver and hardware disagreeing |
| EngineRuns.CallbacksExact | xdma/libxdma.c:803-826 | in every reachable state the callbacks fired are, in order, those of the retired submissions, also when handles are used again |
| EngineRuns.CallbackOnce | xdma/libxdma.c:803-826 | a request's own place in that sequence is filled with its handle iff its last transfer is retired, and then all its transfers are |
| EngineRuns.PlacesDiffer | xdma/libxdma.c:803-826 | two requests have different places, also with the same handle |
| EngineRuns.FailureFiresCallback | xdma/libxdma.c:821-1023 | the head leaves failed iff an error bit is set or, outside eop_flush, descriptors are missing; its callback fires as for a completed one |
| EngineRuns.LeavesOnEopOrComplete | xdma/libxdma.c:955-991 | with eop_flush and no error, over any number of passes, a transfer leaves only when complete or with a packet end among its completed descriptors |
| EngineRuns.EopRetiresHead | xdma/libxdma.c:955-991 | in every reachable state with eop_flush, a pass without an error retires the head iff all its descriptors are complete or any completed one ends a packet, the newest included; it is completed, with the hardware's count |
| EngineRuns.StepKeeps | xdma/libxdma.c:2449-2526 | every enabled step keeps the invariant |
| LibXdma.XdmaEngine.DescInit | xdma/libxdma.c:2264-2290 | links descriptors first..first+count, clears them, leaves the rest of the ring |
| LibXdma.XdmaEngine.Build | xdma/libxdma.c:2925-2961 | fills each descriptor from its piece, clears the result slots of a C2H stream, advances the endpoint address and index, and touches nothing else |
| LibXdma.XdmaEngine.TransferInit | xdma/libxdma.c:2964-3040 | the next min(rest, room) pieces become a complete chain at desc_idx; index and use count advance; the rest of the ring is unchanged |
| LibXdma.XdmaEngine.MarkFlags | xdma/libxdma.c:3004-3021 | stop flags on the last descriptor, and with eop_flush the completion flag on the others |
| LibXdma.XdmaEngine.FillAdjacent | xdma/libxdma.c:3023-3033 | stores each descriptor's adjacent count |
| LibXdma.XdmaEngine.EngineStart | xdma/libxdma.c:682-777 | refuses when running or empty; otherwise programs the head's address and adjacency and resets the dequeued count |
| LibXdma.XdmaEngine.TransferQueue | xdma/libxdma.c:2449-2526 | refusals leave everything as it was; otherwise the queue is extended and an idle engine started, as Enqueue says |
| LibXdma.XdmaEngine.Complete | xdma/libxdma.c:803-826 | calls io_done for a request's last transfer only |
| LibXdma.XdmaEngine.ServiceTransferList | xdma/libxdma.c:828-885 | the list loop retires what RetireList says, with its accounting and callbacks |
| LibXdma.XdmaEngine.FindEop | xdma/libxdma.c:961-975 | found iff some result at an index from the transfer's first up to the completed count has a packet end, the last one included |
| LibXdma.XdmaEngine.ServiceFinal | xdma/libxdma.c:917-1023 | judges the next transfer as Judge says |
| LibXdma.XdmaEngine.ServiceResume | xdma/libxdma.c:1055-1097 | resumes, stops or restarts as Resume says |
| LibXdma.XdmaEngine.EngineService | xdma/libxdma.c:1099-1203 | the whole pass leaves engine, queue, transfers and callbacks as Service says |
| BlockingLoop.LastPassDecides | xdma/libxdma.c:3599-3660 | over any number of service passes during a wait, the first that does not leave the transfer waiting alone decides how it ends; without one it times out |
| BlockingLoop.EopEffect | xdma/libxdma.c:955-991 | with eop_flush, a pass completes a transfer with the count when one of the first count results ends a packet, in full when all descriptors are done, and otherwise leaves it waiting |
| BlockingLoop.CountsCompletedPrefix | xdma/libxdma.c:3551-3696 | outside C2H streaming the byte count is that of the completed prefix iff no completed transfer reaches 4 GiB, and never more; the status is 0 iff all transfers completed |
| BlockingLoop.AllCompletedCountsAll | xdma/libxdma.c:3551-3696 | all transfers complete and none reaches 4 GiB iff the whole length is counted with status 0 and nothing leaked |
| BlockingLoop.SmallRingFits | xdma/libxdma.c:2940-2944 | a ring of less than 4 GiB of pieces never wraps a transfer's length |
| BlockingLoop.LeaksExactly | xdma/libxdma.c:3584-3589 | in every mode desc_used keeps exactly the descriptors of the refused transfer that the loop reaches, and is restored if it reaches none |
| BlockingLoop.EopEndsRequest | xdma/libxdma.c:3613-3623 | a completing pass ends the request iff fewer than all descriptors are done; it counts the lengths of the done ones; a packet end on the last descriptor does not end it |
| BlockingLoop.StreamCounts | xdma/libxdma.c:3613-3623 | on every stream read, with and without eop_flush, the count is the sum over completed transfers of the lengths written back for the completed descriptors, the packet's last one included; the status is never positive |
| BlockingLoop.StatusExact | xdma/libxdma.c:3584-3680 | the status is 0, or -EBUSY, -EIO or -ETIMEDOUT as the first transfer that ends the loop was refused, failed or timed out |
| BlockingLoop.EffectFails | xdma/libxdma.c:917-1023 | a pass fails a waiting transfer iff descriptors are counted and an error bit is set or, outside eop_flush, some are missing |
| Submit.Settle | xdma/libxdma.c:3599-3660 | a wait with any number of passes, busy or stopped, leaves the transfer as EndingOf says |
| Submit.OneTurn | xdma/libxdma.c:3551-3690 | one turn builds the descriptors of min(rest, room) pieces, flags the final transfer, and returns its status, bytes and leak |
| Submit.XferSubmit | xdma/libxdma.c:3464-3697 | returns the count or the error, on a stream read the count of StreamCounts; leaves Leak descriptors accounted, submits the transfers up to the first that ends the loop, flags only the final one, and all submitted descriptors are the request's |
| Submit.SubmittedIsOneCopy | xdma/libxdma.c:3551-3690 | executing what the loop submitted is one linear copy of the submitted pieces |
| Queued.NowaitTurn | xdma/libxdma.c:3917-3970 | one turn of the queued loop builds its descriptors and is one Enqueue of a transfer with the request's callback |
| Queued.SubmitNowait | xdma/libxdma.c:3824-3980 | the request is queued as at most two transfers of its carving, the final one flagged, or refused as a whole; the whole ring is then the old one with the request's descriptors at those places |
| Aperture.FoldAllCovers | xdma/libxdma.c:3275-3319 | the windows cover the scatter list in order; byte k is at ep + k mod aperture; none crosses the window end; lengths are 1..min(aperture, blen) |
| Aperture.FoldedByte | xdma/libxdma.c:3275-3319 | host byte k of the scatter list meets endpoint byte ep + (offset + k) mod aperture |
| Aperture.FoldMaximal | xdma/libxdma.c:3285-3313 | each window but an entry's last is as long as a descriptor and the window allow, or ends where the window ends |
| Aperture.MaskIsRemainder | xdma/libxdma.c:3272 | offset & (aperture - 1) is the place in the window for every offset iff the aperture is a power of two |
| AperturePasses.FurtherPassExactly | xdma/libxdma.c:3271-3321 | for distinct bytes, a pass builds the right host bytes iff it starts in the first scatter-list entry |
| AperturePasses.PassExactly | xdma/libxdma.c:3271-3321 | and the right host and window bytes iff moreover the mask is the remainder at its start |
| ApertureRuns.RunRightExactly | xdma/libxdma.c:3238-3366 | every pass of a run is right iff each starts with a window of the first entry at an offset with the right mask |
| ApertureRuns.RequestRightExactly | xdma/libxdma.c:3238-3366 | a finished run is right throughout iff the window counts and the room divide so, which can be checked before the call; then the passes build the windows of the whole request, once each |
| ApertureRuns.DividesWhen | xdma/libxdma.c:3238-3366 | that condition holds when one pass suffices, or for one entry and a power-of-two aperture; for such an aperture only the pass boundaries matter |
| ApertureRuns.NothingBuiltExactly | xdma/libxdma.c:3275-3340 | a further pass has nothing to build iff it walks only the first entry and its offset is that entry's length |
| ApertureRuns.SecondPass | xdma/libxdma.c:3275-3283 | two entries and a ring of two: the second pass walks the first entry again with a 32-bit difference as its length, and is wrong |
| ApertureRuns.ShortNumbers | xdma/libxdma.c:3275-3283 | with entries of 1 and 100 bytes and a window of 4 that length is 2^32 - 2; with 4 and 100 bytes there is nothing to build |
| ApertureBuild.FillEntry | xdma/libxdma.c:3285-3313 | the inner loop writes the windows of one entry up to its end or the ring's |
| ApertureBuild.FillList | xdma/libxdma.c:3271-3322 | the outer loop writes a prefix of the pass's windows and stops where they or the ring end |
| ApertureBuild.Link | xdma/libxdma.c:3327-3340 | links the chain and sets the stop flags |
| ApertureBuild.BuildPass | xdma/libxdma.c:3238-3366 | any pass, from any index and offset, builds the windows that fit into one complete chain and moves the loop state as AfterPass says, or finds nothing to build |
| ApertureBuild.PassCopies | xdma/libxdma.c:3271-3355 | executing the chain of a pass copies its windows |
| ApertureBuild.ApertureIsFoldedCopy | xdma/libxdma.c:3238-3366 | when the windows divide so, the chains of all passes together copy the scatter list to or from the folded window |
| DbufRuns.EventKeepsExactly | xdma/cdev_sgdma.c:60-226 | an event keeps the session in order iff no read takes an uncleared flag and none queues its slot before START has queued both |
| DbufRuns.EarlyCopyBreaks | xdma/cdev_sgdma.c:203-219 | a read of a flag that START has yet to clear breaks the order |
| DbufRuns.EarlyPartBreaks | xdma/cdev_sgdma.c:203-219 | so does a slot queued again before START is done |
| DbufRing.SessionHolds | xdma/cdev_sgdma.c:60-226 | both invariants hold in every state of every such interleaving of START, reader, hardware and callback |
| DbufRing.DeliveredIsPrefix | xdma/cdev_sgdma.c:60-144 | delivered buffers are a prefix of captured ones, the k-th completion is for slot k mod 2, and completed minus read is 0, 1 or 2 |
| DbufRing.ReadsAfterStartDeliver | xdma/cdev_sgdma.c:203-226 | so it is when no read gets past its wait before START is done |
| DbufRing.SlotsExclusive | xdma/cdev_sgdma.c:115-133 | a cleared slot is never filled and queued at once, DMA writes only the slot whose turn it is, and the engine is idle iff no slot is queued |
| DbufRing.TargetIsHeads | xdma/cdev_sgdma.c:115-144 | the descriptor that the hardware executes is the running transfer's own, so it writes that transfer's slot |
| DbufRing.ClaimKeepsOwnersExactly | xdma/libxdma.c:2964-3027 | building a transfer leaves every queued one its descriptors iff all together fit the ring |
| DbufRing.SessionRingDisjoint | xdma/libxdma.c:2964-3027 | with slots of at most p descriptors and 2p <= desc_max, no two queued transfers ever share a descriptor |
| DbufRing.OneDescriptorSlots | xdma/cdev_sgdma.c:115-144 | one-descriptor slots always meet that condition |
| DbufRing.FillingLeavesRoom | xdma/cdev_sgdma.c:115-144 | while a slot is submitted, queued and new descriptors fit the ring |
| DbufWitness.EarlyReadReorders | xdma/cdev_sgdma.c:203-219 | a read during START: buffers 1, 2, 3 are captured, 1 and 3 delivered, and the completions are for slots 0, 0, 1 |
| DbufWitness.OversizedSlotsCollide | xdma/cdev_sgdma.c:115-144 | three-descriptor slots on a ring of four: slot 0's transfer writes slot 1 |
| SlotRing.LaidMore | xdma/cdev_sgdma.c:115-144 | submitting a slot lays its descriptors on its own buffer and leaves those of the other slot on theirs |
| SlotRing.SlotCovered | xdma/cdev_sgdma.c:94-144 | the queued descriptors of a slot store to its buffer, all of it, byte for byte and in order |
| SlotRing.StoreInside | xdma/cdev_sgdma.c:94-144 | every byte that a descriptor of the running transfer names lies in the buffer of the slot whose callback that transfer carries |
| CdevSgdma.DoubleBuffer.IoDone | xdma/cdev_sgdma.c:60-88 | ignored when inactive; an error deactivates; otherwise exactly the slot's flag is set |
| CdevSgdma.DoubleBuffer.SubmitSlot | xdma/cdev_sgdma.c:115-144 | carries out the session's submission events for the slot, for every ring position, and leaves the ring as before but for the descriptors of that slot's bus address and size at the device's endpoint address |
| CdevSgdma.DoubleBuffer.Start | xdma/cdev_sgdma.c:147-226 | validates its arguments with the source's errors; on success it keeps buffers and endpoint address, both slots are queued in order, their descriptors store to their own buffers, and the session waits |
| CdevSgdma.DoubleBuffer.Store | xdma/cdev_sgdma.c:94-144 | a byte stored at an address that the executing descriptor names lands at that address of one buffer, that of the slot whose turn it is in the session; nothing else changes |
| CdevSgdma.DoubleBuffer.Read | xdma/cdev_sgdma.c:653-697 | the error order; on success the first count bytes of the oldest undelivered capture, and the other slot next |
| CdevSgdma.DoubleBuffer.TakeSlot | xdma/cdev_sgdma.c:682-696 | copy, resubmit and toggle are the session's events |
| CdevSgdma.DoubleBuffer.Service | xdma/libxdma.c:1099-1203 | a service pass with its callbacks is the session's Serve event |
| CdevSgdma.RunPartsEnqueue | xdma/libxdma.c:3917-3978 | the transfers of a slot, queued one by one, are the session's Part events and keep its invariant |
| CdevSgdma.CopyFacts | xdma/cdev_sgdma.c:672-684 | a filled slot at dbuf_read_idx holds the oldest undelivered capture |
| CdevSgdma.SameReading | xdma/libxdma.c:955-991 | a pass on the head uses the result memory only to find a packet end |
| CdevSgdma.StoreFacts | xdma/cdev_sgdma.c:94-144 | the slot found from a stored address is the one that the session's hardware is writing |
| XdmaThread.PickedLeastExactly | xdma/xdma_thread.c:248-261 | the choice is least loaded iff some thread is idle or the last load below the first one's, if any, is a minimum |
| XdmaThread.AlwaysLeastExactly | xdma/xdma_thread.c:248-261 | it is so for every arrangement of the loads iff one of them is 0 or at most two different ones occur |
| XdmaThread.EveryLoadReached | xdma/xdma_thread.c:210-277 | every assignment of loads comes about by additions and removals |
| XdmaThread.AddKeepsBalance | xdma/xdma_thread.c:240-277 | loads within one of each other stay so |
| XdmaThread.AddRunIsEven | xdma/xdma_thread.c:240-277 | after k additions to n idle threads every load is floor(k/n) or one more |
| XdmaThread.ThreadPool.PickThread | xdma/xdma_thread.c:248-261 | first idle later thread, else the last one below the first one's load, else the first |
| XdmaThread.ThreadPool.AddWork | xdma/xdma_thread.c:240-277 | work counts are list lengths, each engine is on exactly one thread, the loads make one step, and balance is kept |
| XdmaThread.ThreadPool.RemoveWork | xdma/xdma_thread.c:210-238 | removes exactly that engine and keeps counts and membership |
| CdevXvc.ShiftConcat | xdma/cdev_xvc.c:165-191 | shifting in two parts is one shift |
| CdevXvc.ShiftIsClocked | xdma/cdev_xvc.c:58-96 | clock i of a shift takes bit i of TMS and of TDI and gives bit i of TDO |
| CdevXvc.XvcBar.ShiftBits | xdma/cdev_xvc.c:58-96 | completes iff fewer than 100 polls see the shift busy, with LENGTH bits shifted |
| CdevXvc.Chunk | xdma/cdev_xvc.c:167-190 | one chunk shifts and returns the next min(32, bits_left) bits in place |
| CdevXvc.ShiftVector | xdma/cdev_xvc.c:159-191 | first total_bits of TDO and the final chain state are those of one bit-serial shift; LENGTH is min(32, bits_left) each time; otherwise a timeout |
| CdevXvc.XvcIoctl | xdma/cdev_xvc.c:98-213 | opcode check, failed allocation, success iff every shift completes, and loopback for opcode 2 |
| CdevXvc.TotalBytesExactly | xdma/cdev_xvc.c:136-139 | the computed buffer size is the number of bytes iff the total is at most 2^32 - 8 |
| CdevXvc.CounterReaches | xdma/cdev_xvc.c:165-166 | the 32-bit bit counter reaches the total iff it is at most 2^32 - 32 |
| Lfsr.LfsrNext | lfsr_analysis_utils.py:61-66 | the tap loop computes the feedback step for any taps |
| Lfsr.NextBits | lfsr_analysis_utils.py:61-66 | with the given taps the step shifts left by one and brings the exclusive or of the tapped bits in at the bottom |
| Lfsr.NextBijective | lfsr_analysis_utils.py:17 | with the given taps the step is a bijection and keeps bit0^bit24^bit26^bit28^bit31 |
| Lfsr.NextXor | lfsr_analysis_utils.py:61-66 | the step is linear over exclusive or, for any taps |
| Lfsr.IterXor | lfsr_analysis_utils.py:61-66 | so are any number of steps |
| Lfsr.FixedPoints | lfsr_analysis_utils.py:17 | exactly the all-zero and the all-one word never change |
| Lfsr.VerifyLfsr | lfsr_analysis_utils.py:69-103 | counts the broken transitions |
| Lfsr.NoErrorsIsOrbit | lfsr_analysis_utils.py:69-103 | no error iff value i is i steps from value 0, for every i |
| Lfsr.FindLfsrSteps | lfsr_analysis_utils.py:106-113 | the least step count within the limit, or none if there is none |
| Lfsr.ParityNeverFound | lfsr_analysis_utils.py:106-113 | none for every limit when the conserved bits differ |
| Lfsr.StepsAfterLoss | lfsr_analysis_utils.py:106-113 | after m lost samples a count of at most m + 1, equal iff the value does not return to itself within m steps |
| LfsrReport.SignedFaithful | lfsr_analysis_utils.py:22-27 | the signed value is the word modulo 2^32, and two's complement iff outside (2^30, 2^31) |
| LfsrReport.ParseBytes | lfsr_analysis_utils.py:38-58 | for every whole record, the register is the word at byte 0, the counter the half word at 14, sine and cosine the words at 16 and 20 as signed values, all little-endian |
| LfsrReport.DecodeBytes | lfsr_analysis_utils.py:30-35 | the four fields of one record, byte by byte |
| LfsrReport.SkipReport | lfsr_analysis_utils.py:145-223 | one row per bad transition, in order, with counters and registers from the bytes of its two records, and the right totals |
| LfsrReport.BadOnesMeaning | lfsr_analysis_utils.py:177-182 | the reported transitions are exactly the bad ones, ascending |
| LfsrReport.ReportedExactly | lfsr_analysis_utils.py:177-182 | a transition of the file has a row iff its counters are not consecutive modulo 2^16 or its second register is not the next one |
| LfsrReport.TotalsMeaning | lfsr_analysis_utils.py:145-223 | the totals are the numbers of samples, rows, broken counters, broken registers, and rows whose two loss counts agree |
| LfsrReport.MakeRow | lfsr_analysis_utils.py:184-219 | every field of a row from its two records |
| LfsrReport.LossReported | lfsr_analysis_utils.py:187-191 | m lost samples are counted as m iff 1 <= m <= 0x7FFE, across wraps; up to 63 the step count is least and at most m + 1, exact iff no short cycle |
| LfsrReport.LossSeen | lfsr_analysis_utils.py:177-182 | a loss gives a row unless both counter and register come round |
| LfsrReport.CheckBufferBoundaries | test_lfsr.py:104-130 | boundary errors are the broken transitions into a buffer's first record, inner errors the others; a division error iff buffers hold no record and there is an error |
| LfsrReport.ThreeCounts | test_lfsr.py:104-130 | on at least two records the report's count, verify_lfsr and the split agree |

## Left out

- Out-of-memory paths other than the virtual cable's, DMA mapping and page pinning: a pinning result or a mapped list is a parameter.
- Poll mode, write-back timing and wall clocks; a wait is a sequence of service passes, a timeout or a refusal given as data.
- DBUF STOP, close, failed START and offline: they abandon queued transfers.
- `transfer_abort` and engine stop outside the blocking loop's timeout.
- Cyclic transfers, performance runs, credits, AIO completion, bypass, control and event devices.
- PCI, interrupts, locks, wait queues and threads as such: each locked region is one step.
- Alignment checks of addresses and lengths, which come before the modelled part.
- `Request.InitRequest`: a store beyond the counted slots is dropped, where the source writes it before it fails; the slot sum is unbounded, not an `int`.
- `Queued.SubmitNowait`: requires at most 2 * desc_max - desc_idx descriptors, because the source then writes past its two records.
- `Submit.XferSubmit`: one thread on an otherwise idle engine; `last_in_request` of another request never interleaves.
- `ApertureBuild.BuildPass`: when nothing is to be built the source runs off the ring, and nothing is said of the state; the new loop state is stated for lists without empty entries; the wait and accounting after a pass are those of the blocking loop.
- `CdevSgdma.DoubleBuffer.Read`: starts where the wait ends; the fallback to the single-buffer path is not modelled.
- `CdevSgdma.DoubleBuffer.Start`: the success path needs slots of at most half the ring of descriptors and an idle engine; with more the session is not in order (`DbufWitness.OversizedSlotsCollide`).
- `CdevXvc.XvcIoctl`: an allocation granted for a total above 2^32 - 32 is excluded: the loop over it would not end.
- `CdevXvc.ShiftVector`: what a shift that never completes does to the chain is left open, and TDO above the shifted bits is arbitrary.
- `CdevSgdma.DoubleBuffer.Store`: one byte a step; completions and the hardware's stop are the steps of `Hardware`.
- Read and write wrappers of the device, CSV writing, printing, plots and the collection of test data.
