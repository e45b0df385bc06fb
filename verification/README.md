# Verified models of a NIC driver and its test endpoints

This project models, in Dafny, the parts of the repository in which several agents share state or a loop
does arithmetic on unbounded input, and proves what they are meant to guarantee. Run
`dafny verify dfyconfig.toml` in this directory.

| part | modules | models |
|---|---|---|
| descriptor rings | `PtrArith`, `DescRing`, `TxQueue`, `TxDriver`, `RxQueue`, `RxDriver` | the kernel driver's transmit and receive rings as step systems with wrapping pointers, and the driver routines as methods under interference |
| packet pool | `PacketPool`, `PoolBound`, `PacketDriver` | the simulation driver: buffers, rings and completion queues over all interleavings of its coroutines and the NIC |
| AXI | `AxiTransfer`, `AxiRefinement`, `AxiReads`, `AxiBus`, `AxiRam` | the master's burst splitting and the RAM, against a byte array |
| Ethernet | `Xgmii`, `XgmiiRuns`, `XgmiiErrors`, `XgmiiGaps`, `XgmiiBus`, `BaseRCodec`, `BaseRFormats`, `BitVectors`, `Scrambler`, `BaseRSerdes`, `BaseRErrors`, `BaseRResync`, `BaseRBus` | frames, deficit idle count, 64b/66b code, scrambler, and both links end to end |
| AXI-Stream | `AxiStream`, `AxisHandshake`, `AxisReset`, `AxisBus` | frames as beats, the ready/valid handshake with pauses, and resets |
| PCIe and DMA | `CompleterQueue`, `ReadPipeline`, `DmaRam`, `DmaPorts` | the credit queue for completer requests, the stalling read pipeline, striped RAM ports |
| time | `Timespec` | seconds and nanoseconds with machine limits, and schedule alignment |
| flash | `NorFlash`, `FlashTool`, `DualFlash`, `Stristr` | a NOR flash chip, the command loops, two layers of segmentation, one and two chips, the string search |

`Arith` and `Lanes` hold the arithmetic, `Wrappers` the option type.

Code that updates objects is a class whose methods are proved against specification functions; the lemmas
are about these functions. A run is a sequence of atomic steps, each one access of shared state, in any
interleaving.

What the rings assume of the NIC: it completes each descriptor it was told of at most once, its tail never
passes the head it was told, and it writes no completion into a full queue. Of the kernel: the stack does
not call `start_xmit` while the queue is stopped, nor twice at once; each completion routine runs once at a
time; memory is sequentially consistent. Ring sizes are powers of two from 2 to 2^15. The root complex hands
out fresh memory regions.

## Findings

Where the code does not do what its documentation, its tests or its counterpart promise, the model keeps
the code and states exactly when it does.

- **Completion index of the simulation driver** (fpga/common/tb/mqnic.py:845 and 888): the index of a
  completion is the descriptor counter modulo 2^16 and is not masked, while the kernel driver masks it
  (modules/mqnic/mqnic_tx.c:244). The driver fails iff it finds a completion whose counter modulo 2^16 is not
  below the ring size (`PacketPool.PoolKept`); the first is descriptor number `size`, reached by sending
  `size + 1` packets (`PacketPool.IndexFails`).
- **Full rings of the simulation driver** (fpga/common/tb/mqnic.py:943-955): `start_xmit` does not ask for room.
  The buffers stay partitioned iff the slot at the head is empty in every call (`PacketPool.PartitionExact`);
  `size + 1` packets sent before any completion is handled lose the first one (`PacketPool.OverrunLoses`).
- **Doorbell after a failed mapping** (modules/mqnic/mqnic_tx.c:495-500): packets posted before with more to
  follow stay unknown to the NIC iff the last one of the batch cannot be mapped (`TxDriver.TxRing.StartXmit`);
  `TxQueue.UntoldReachable` has a run that gets there.
- **timespec_mod near the limit** (utils/timespec.c:141-151): the doubling loop stops at LONG_MAX/2 seconds.
  The result is wrong iff the dividend covers a doubling of the divisor beyond that, unless it equals it and
  the signs differ (`Timespec.Modulo`); for example (LONG_MAX - 1) s modulo half of it (`Timespec.ModFailsAt`).
- **timespec_mod of the least pairs** (utils/timespec.c:124-136): an operand of LONG_MIN seconds or below is
  negated with overflow, unless the divisor is zero, and no other pair overflows (`Timespec.Modulo`); for
  example LONG_MIN s itself (`Timespec.NegationFailsAt`).
- **timespec_sub** (utils/timespec.c:87-102): where both operands and the difference have a normal form, it
  overflows iff the minuend is negative by less than a second and the subtrahend at LONG_MIN seconds or below
  (`Timespec.Sub`); for example -1 ns less LONG_MIN s (`Timespec.SubFailsAt`).
- **Aligned start** (utils/mqnic-config.c:221-234): the start programmed can still lie in the past, iff its
  phase comes before that of now (`Timespec.AlignStart`).
- **Short frames** (fpga/lib/eth/tb/xgmii_ep.py:301-338): a sink does not look for a terminator in the word of
  the start. A run delivers what was sent iff every frame has at least as many bytes as there are lanes from its
  start to the end of the word (`XgmiiRuns.RunExact`, `XgmiiRuns.AloneArrives`). Over 10GBASE-R a shorter frame is
  lost (`BaseRErrors.FlagsDeliveredR`).
- **Flagged starts** (fpga/lib/eth/tb/xgmii_ep.py:301-318): a byte flagged so that the source sends a start is taken
  for a new frame if it comes after the first control character, in a lane where the sink looks for one; for
  example one in byte 16 after an error in byte 8 (`XgmiiErrors.FeedAny`, `XgmiiErrors.NotCalmAt`).
- **Ordered set in lane 0 alone** (fpga/lib/eth/tb/baser_serdes_ep.py:271): the control codes of the wrong lanes
  are put into the block, shifted beyond its 64 bits. Without scrambling and reversal the block does not fit the
  bus; with either of them its upper bits are dropped, and it decodes as a sequence set, its three data lanes and
  four errors, whatever lanes 4 to 7 were. So it arrives as it was sent iff it is such a word and the line is
  scrambled or reversed (`BaseRSerdes.WordTrip`).
- **Reset of the AXI-Stream sink alone** (fpga/lib/axi/tb/axis_ep.py:441-481): the sink takes beats whatever its
  own ready flag, so it does harm unless no beat is on the bus and no frame is begun (`AxisReset.SinkResetExact`,
  `AxisReset.SinkResetBreaks`, `AxisReset.HarmReachable`).
- **Dual-QSPI images** (utils/mqnic-fw.c:904-922): the last 0x68 bytes of a segment are not carried
  (`FlashTool.DualImageRoundTrip`), and the last byte of an image of odd length is not programmed if the length
  per chip happens to end at an erase block (`DualFlash.DualLenExact`); the comparison afterwards passes.
- **Reads across 16 MiB** (utils/flash_spi.c:373-398): a range of at most 64 KiB that crosses 16 MiB is not
  read in place (`FlashTool.SegmentsReach`).

## Model

| member | source | states |
|---|---|---|
| `PtrArith.ReadPtrExact` | modules/mqnic/mqnic_cq.c:144-147 | A masked register read restores the NIC's counter exactly modulo 2^32, from any pair of counters less than 2^16 apart and across every wrap. |
| `PtrArith.FollowExact` | modules/mqnic/mqnic_cq.c:149-152 | The NIC recovers the driver's unbounded counter from the 16 bits written to a pointer register. |
| `PtrArith.DistanceExact` | modules/mqnic/mqnic_tx.c:150-158 | The wrapped 32-bit distance is the true one, so the empty and full tests decide the same as on counters that never wrap. |
| `PtrArith.PtrSlot` | modules/mqnic/mqnic_tx.c:438-438 | Masking a wrapped pointer selects the slot of the counter it stands for. |
| `DescRing.ConsumeHits` | modules/mqnic/mqnic_tx.c:242-257 | The masked index of any completion the driver handles names a slot that holds the item posted with that very descriptor, in whatever order descriptors complete. |
| `TxQueue.FullExact` | modules/mqnic/mqnic_tx.c:155-158 | The wrapped full test sees the true number of slots in use, and full_size + 1 never exceeds the ring. |
| `TxQueue.StepKeeps` | modules/mqnic/mqnic_tx.c:211-301 | Every atomic step of start_xmit, of process_tx_cq and of the NIC keeps the invariant of the queue, a wake-up decided on but not yet delivered included. |
| `TxQueue.RunKeeps` | modules/mqnic/mqnic_tx.c:413-550 | So does every run, that is every interleaving of those steps. |
| `TxQueue.NoSlotOverwritten` | modules/mqnic/mqnic_tx.c:436-440 | In every run from activation at most full_size + 1 slots are in use and start_xmit never fills a slot that still holds an skb. |
| `TxQueue.NoLostWakeup` | modules/mqnic/mqnic_tx.c:511-544 | In every run, a stopped queue that neither thread is about to recheck is really full, and the NIC has been told of all that was posted. |
| `TxQueue.EverySkbOnce` | modules/mqnic/mqnic_tx.c:170-189 | In every run each completion frees the skb posted with its descriptor, no descriptor is freed twice, and what is posted and not freed is still in its slot. |
| `TxQueue.UntoldReachable` | modules/mqnic/mqnic_tx.c:495-500 | A run from activation, with a ring of any size above 2, in which one packet is posted with more to follow and the next cannot be mapped, ends outside start_xmit with a posted descriptor that the NIC was not told of. |
| `TxDriver.OthersLeavePoll` | modules/mqnic/mqnic_tx.c:413-550 | No step of start_xmit or the NIC touches what process_tx_cq relies on between two accesses. |
| `TxDriver.OthersLeaveXmit` | modules/mqnic/mqnic_tx.c:211-301 | No step of process_tx_cq or the NIC touches what start_xmit relies on between two accesses. |
| `TxDriver.TxRing.ProcessTxCq` | modules/mqnic/mqnic_tx.c:211-301 | Under interference at every access: one run of the protocol that frees, in order, exactly the completions present at the start up to the budget, stops the clean tail at the first descriptor not completed or at the tail read, and leaves the queue stopped only if it is full. |
| `TxDriver.TxRing.FreeTxDesc` | modules/mqnic/mqnic_tx.c:170-189 | The slot a completion names always holds an skb. |
| `TxDriver.TxRing.DrainCompletions` | modules/mqnic/mqnic_tx.c:239-265 | The completion loop ends with the budget used up or with every completion found handled. |
| `TxDriver.TxRing.ReclaimSlots` | modules/mqnic/mqnic_tx.c:271-289 | The clean tail ends at the NIC's tail as it was read or at a descriptor that is not completed. |
| `TxDriver.TxRing.WakeIfRoom` | modules/mqnic/mqnic_tx.c:294-298 | The wake test, with start_xmit running between its two reads, is a run of the protocol that frees nothing. |
| `TxDriver.TxRing.StartXmit` | modules/mqnic/mqnic_tx.c:413-550 | Under interference: posts the skb iff it is mapped; after a call with no more to follow the NIC has been told of everything posted iff the skb was mapped or it knew before. |
| `TxDriver.TxRing.MapSkb` | modules/mqnic/mqnic_tx.c:339-411 | The slot filled was empty, and is emptied again when mapping fails. |
| `RxQueue.MissingExact` | modules/mqnic/mqnic_rx.c:247-249 | What refill counts down is the number of slots not in use. |
| `RxQueue.RefillMeetsEmptySlot` | modules/mqnic/mqnic_rx.c:206-211 | A refill in progress always meets an empty slot, so the branch for a page not yet processed is never taken. |
| `RxQueue.SlotsAndBounds` | modules/mqnic/mqnic_rx.c:247-264 | In every run, with completions in any order, at most `size` slots are in use, slots outside [clean_tail, head) are empty and no refill clashes. |
| `RxQueue.PagesConserved` | modules/mqnic/mqnic_rx.c:201-386 | In every run each page allocated is in exactly one place: returned, in one slot, or handed up, and none is handed up twice. |
| `RxDriver.NicLeavesDriver` | modules/mqnic/mqnic_rx.c:266-386 | The NIC changes nothing the poll routine relies on. |
| `RxDriver.RxRing.ProcessRxCq` | modules/mqnic/mqnic_rx.c:266-386 | Hands up, in completion order, exactly as many pages as there are completions present, up to the budget and to the call of napi_get_frags that fails; reclaims up to the first descriptor not completed; and then posts nothing if fewer than eight slots are free, else exactly those up to the first page that is not to be had, and tells the NIC. |
| `RxDriver.RxRing.HandUpPages` | modules/mqnic/mqnic_rx.c:291-347 | The loop ends after the least of the completions found, the budget and the calls of napi_get_frags that succeed, and publishes just those. |
| `RxDriver.RxRing.RefillBuffers` | modules/mqnic/mqnic_rx.c:247-264 | Posts nothing if fewer than eight slots are free; else one page for each free slot up to the first one that cannot be allocated or mapped, and rings the doorbell. |
| `RxDriver.RxRing.PrepareRxDesc` | modules/mqnic/mqnic_rx.c:201-245 | The slot at the head is empty; it gets a fresh page iff one can be allocated and mapped, and else the ring stays exactly as it was. |
| `PacketPool.IndexNames` | fpga/common/tb/mqnic.py:843-849 | An unmasked completion index names a slot of the list iff the descriptor's counter modulo 2^16 is below the size, and then the slot holds the buffer posted with that descriptor. |
| `PacketPool.StepKeeps` | fpga/common/tb/mqnic.py:831-982 | Every step between two yields of the driver in which no start_xmit meets an occupied slot, and every step of the NIC, keeps the partition of the buffers and what each queue's slots hold; PartitionExact has the other case. |
| `PacketPool.PartitionExact` | fpga/common/tb/mqnic.py:934-970 | Over any run from any sound state the buffers stay partitioned into free list and slots iff every start_xmit finds the slot at the head empty; a buffer once lost never comes back. |
| `PacketPool.PoolKept` | fpga/common/tb/mqnic.py:1069-1080 | The same from init, over all queues of all interfaces; without such a loss the driver fails iff it has found a completion whose counter modulo 2^16 is no index of the list, and every buffer freed is the one posted with its descriptor. |
| `PacketPool.OnePlace` | fpga/common/tb/mqnic.py:1069-1080 | Under the partition no buffer is in two slots, of one ring or of two, and none in a slot is on the free list. |
| `PacketPool.HeadEmpty` | fpga/common/tb/mqnic.py:467-468 | The slot at the head is empty iff the descriptor one ring back is freed; a ring with room suffices. |
| `PoolBound.NeverMore` | fpga/common/tb/mqnic.py:1069-1080 | In every run in which start_xmit finds room the driver never allocates more buffers than all its rings have slots, as it takes one from the free list as long as there is one. |
| `PacketPool.XmitLoses` | fpga/common/tb/mqnic.py:943-955 | start_xmit on an occupied slot leaves the buffer there without a place. |
| `PacketPool.OverrunLoses` | fpga/common/tb/mqnic.py:943-955 | And on a ring of any size that is reached: as many packets as the ring has slots, and one more, cost the buffer of the first. |
| `PacketPool.IndexFails` | fpga/common/tb/mqnic.py:843-849 | On a ring of any size, packets sent one at a time bring the driver down with the completion of descriptor number `size`. |
| `PacketPool.SkipExact` | fpga/common/tb/mqnic.py:863-872 | The clean tail passes freed descriptors only and stops at an occupied slot or the tail. |
| `PacketDriver.OthersKeepStill` | fpga/common/tb/mqnic.py:831-932 | What runs at a yield of a completion routine consumes and reclaims nothing of its queue. |
| `PacketDriver.OthersRunKeepsStill` | fpga/common/tb/mqnic.py:831-932 | Nor does any run of other coroutines and the NIC, which is what may happen at one yield. |
| `PacketDriver.Driver.ConsumeFound` | fpga/common/tb/mqnic.py:843-858 | The completion loop, exceptions included, against the recursive specification. |
| `PacketDriver.Driver.ProcessTxCq` | fpga/common/tb/mqnic.py:831-872 | With other coroutines running at every yield: all completions present at the start are consumed, the NIC is told so, and the slots are reclaimed, unless an exception ends the simulation. |
| `PacketDriver.Driver.ProcessRxCq` | fpga/common/tb/mqnic.py:874-932 | The same, and afterwards, if at least eight descriptors were missing, exactly the missing ones are posted and the NIC is told of them, and else none. |
| `PacketDriver.Driver.StartXmit` | fpga/common/tb/mqnic.py:934-982 | Keeps the partition iff the slot at the head was empty. |
| `AxiTransfer.PowersAreWidths` | fpga/lib/axi/tb/axi.py:157-237 | All bus and beat widths the code admits are covered. |
| `AxiTransfer.PlanLegal` | fpga/lib/axi/tb/axi.py:304-305 | Every burst the master issues has 1 to 256 beats and stays inside its 4 KiB page (section A3.4.1 of ARM IHI 0022). |
| `AxiTransfer.PlanExact` | fpga/lib/axi/tb/axi.py:304-305 | The bursts of a transfer are exactly its beats in order, with IDs that count up; and every burst but the last has as many beats as max_burst_len and 256 allow, or ends at a page boundary. |
| `AxiRefinement.LoadAfterStore` | fpga/lib/axi/tb/axi.py:616-622 | In a memory whose addresses wrap, what is stored is loaded back if it does not overlap itself. |
| `AxiRefinement.WordsStore` | fpga/lib/axi/tb/axi.py:285-320 | The strobed words of a write, applied one by one, amount to one byte-array store, whatever the alignment of its ends. |
| `AxiRefinement.WriteRefines` | fpga/lib/axi/tb/axi.py:246-323 | The master's bursts and beats, served by the RAM, are all accepted, are used up exactly, and leave the memory as one direct store of the data at the address, for any widths, burst limit, address and data. |
| `AxiRefinement.WritesRefine` | fpga/lib/axi/tb/axi.py:712-775 | Any number of writes queued behind each other end as after the stores in that order. |
| `AxiReads.ReadRefines` | fpga/lib/axi/tb/axi.py:416-541 | The RAM accepts every burst of a read, and the bytes gathered from its answers are one direct load, in whatever way answers of other IDs are mixed in. |
| `AxiReads.ReadReturnsWritten` | fpga/lib/axi/tb/axi.py:246-541 | A read after a write of the same range returns the data written, even with another beat size. |
| `AxiBus.AxiMaster.Write` | fpga/lib/axi/tb/axi.py:246-323 | The loop of write_logic queues exactly those bursts and strobed beats. |
| `AxiBus.AxiMaster.Read` | fpga/lib/axi/tb/axi.py:416-471 | The loop of read_logic, whose counter runs differently, queues the same plan of bursts. |
| `AxiBus.AxiMaster.Collect` | fpga/lib/axi/tb/axi.py:474-541 | read_resp_logic gathers exactly the lanes that belong to the read, and fails iff an answer is missing or its last flag is wrong. |
| `AxiRam.RamPort.WriteWord` | fpga/lib/axi/tb/axi.py:741-757 | A strobed word changes just the bytes under its strobes, at the wrapped address. |
| `AxiRam.RamPort.ServeWrites` | fpga/lib/axi/tb/axi.py:712-775 | Serving the queued writes ends in the specified memory, or stops exactly where an assertion of the code fails. |
| `AxiRam.RamPort.ServeReads` | fpga/lib/axi/tb/axi.py:833-881 | The answers queued are the bus words of the memory, burst by burst. |
| `Xgmii.ParseOfBuild` | fpga/lib/eth/tb/xgmii_ep.py:57-110 | Parsing what was built returns data, flags and errors; an error takes the place of its byte, and error characters count as errors. |
| `Xgmii.CleanRoundTrip` | fpga/lib/eth/tb/xgmii_ep.py:57-110 | Frames without flags come back unchanged. |
| `Xgmii.ClockKeeps` | fpga/lib/eth/tb/xgmii_ep.py:159-238 | Every clock keeps source and sink together, with a start in lane 0 or 4 on both bus widths. |
| `Xgmii.Delivery` | fpga/lib/eth/tb/xgmii_ep.py:159-338 | In every run the sink has queued, in order, the first of the frames sent, and all of them once the source is empty. |
| `Xgmii.AllArrive` | fpga/lib/eth/tb/xgmii_ep.py:159-338 | Clocked on, every frame arrives. |
| `XgmiiErrors.FlagsDelivered` | fpga/lib/eth/tb/xgmii_ep.py:57-338 | In every run, for frames with any error and control flags that end beyond the word of their start and are calm: of each frame the sink queues, in order, one frame; if the first flag is at byte k, beyond the word of the start, that has the k bytes before it and then the flagged character, with the error flag iff it is ERROR, and nothing else; a frame without flags arrives as it was. |
| `XgmiiErrors.FeedAny` | fpga/lib/eth/tb/xgmii_ep.py:205-338 | A frame makes the sink queue one frame, cut at its first control character beyond the word of the start, and nothing else, iff it is calm: after that no byte where the sink looks for a start is flagged so that the source sends one. |
| `XgmiiErrors.NotCalmAt` | fpga/lib/eth/tb/xgmii_ep.py:301-318 | An instance of a frame that is not calm. |
| `XgmiiRuns.RunExact` | fpga/lib/eth/tb/xgmii_ep.py:159-338 | For frames of any length and any run: the sink ends up with just the frames sent iff each of them is at least as long as the lanes from its start to the end of that word, four for a start in lane 4 of eight and else the bus width; and while they all are, it has queued the first of them. |
| `XgmiiRuns.AloneArrives` | fpga/lib/eth/tb/xgmii_ep.py:159-338 | From reset a frame arrives iff it has at least as many bytes as the bus lanes, or four on eight lanes with force_offset_start. |
| `XgmiiGaps.ClockOwes` | fpga/lib/eth/tb/xgmii_ep.py:177-238 | One clock keeps the account of idles owed, with and without slack. |
| `XgmiiGaps.GapsBounded` | fpga/lib/eth/tb/xgmii_ep.py:177-238 | In every run from reset, idle periods included, each gap is at least ifg - 3 with the deficit count and ifg without it, and N gaps together are at least N ifg - 3 (clause 46.3.1.4 of IEEE Std 802.3). |
| `XgmiiGaps.GapsExact` | fpga/lib/eth/tb/xgmii_ep.py:177-238 | Back to back, whenever the frames are queued, N gaps sum up to N ifg less the deficit carried, which is at most 3. |
| `XgmiiBus.BuildFrame` | fpga/lib/eth/tb/xgmii_ep.py:57-97 | The building loop meets the specification. |
| `XgmiiBus.XgmiiSource.OnClock` | fpga/lib/eth/tb/xgmii_ep.py:159-238 | One clock of the source is one step of the specification, under reset and enable. |
| `XgmiiBus.XgmiiSink.OnClock` | fpga/lib/eth/tb/xgmii_ep.py:288-338 | One clock of the sink is one step of the specification, under reset and enable. |
| `BaseRCodec.CharOfCode` | fpga/lib/eth/tb/baser_serdes_ep.py:191-228 | Exactly the mapped control characters survive their seven-bit code. |
| `BaseRFormats.EncodeFormat` | fpga/lib/eth/tb/baser_serdes_ep.py:61-76 | Every word the code can carry has the block that Figure 49-7 of IEEE Std 802.3 gives it, bit by bit: header, type, and the place of each data byte, control code and ordered set. |
| `BaseRCodec.RoundTrip` | fpga/lib/eth/tb/baser_serdes_ep.py:186-325 | Decoding what was encoded gives the word back for every data word and every control word whose characters stand where the format of its block has a place (clause 49.2.4 of IEEE Std 802.3). |
| `BaseRCodec.OnlyCodable` | fpga/lib/eth/tb/baser_serdes_ep.py:433-637 | And for no other word that has a block of 64 bits. |
| `BaseRCodec.ComesBack` | fpga/lib/eth/tb/baser_serdes_ep.py:271-271 | The block has more than 64 bits just for an ordered set in lane 0 alone; cut to 64 bits it gives the word back iff that is a sequence set with errors in lanes 4 to 7. |
| `BaseRSerdes.WordTrip` | fpga/lib/eth/tb/baser_serdes_ep.py:186-637 | Over the line, for every mode shared by both ends: sending raises an exception just for an ordered set in lane 0 alone without scrambling and reversal; and a word arrives as it was iff it is codable, or is a sequence set followed by three data lanes and four errors and the line is scrambled or reversed. |
| `BitVectors.WordOfBits` | fpga/lib/eth/tb/baser_serdes_ep.py:338-352 | The 64 bits of a word make the word again. |
| `BitVectors.ReverseBits` | fpga/lib/eth/tb/baser_serdes_ep.py:349-352 | The reversal loop moves bit i to place n - 1 - i. |
| `Scrambler.Inverse` | fpga/lib/eth/tb/baser_serdes_ep.py:338-347 | From equal registers the descrambler undoes the scrambler. |
| `Scrambler.Polynomial` | fpga/lib/eth/tb/baser_serdes_ep.py:338-347 | Each bit on the line is the bit of data combined with those of the line 39 and 58 places before it, which for the first bits are in the register: the polynomial of clause 49.2.6 of IEEE Std 802.3. |
| `Scrambler.DescramblePolynomial` | fpga/lib/eth/tb/baser_serdes_ep.py:424-431 | The same for the descrambler. |
| `Scrambler.RegisterHolds` | fpga/lib/eth/tb/baser_serdes_ep.py:338-347 | The register holds the last 58 bits of the line, the newest first. |
| `Scrambler.Synchronises` | fpga/lib/eth/tb/baser_serdes_ep.py:424-431 | From any two registers all bits after the first 58 come back (clauses 49.2.6 and 49.2.10 of IEEE Std 802.3). |
| `Scrambler.NotSooner` | fpga/lib/eth/tb/baser_serdes_ep.py:424-431 | 58 is the least such number: registers that differ in the newest bit get the 58th wrong. |
| `Scrambler.ScrambleWord` | fpga/lib/eth/tb/baser_serdes_ep.py:338-347 | The scrambler loop of one word. |
| `Scrambler.DescrambleWord` | fpga/lib/eth/tb/baser_serdes_ep.py:424-431 | The descrambler loop of one word. |
| `BaseRSerdes.LineTrip` | fpga/lib/eth/tb/baser_serdes_ep.py:338-431 | The 64 bits of a block cross the line unchanged between ends with equal registers, for every setting of scrambling and reversal. |
| `BaseRSerdes.LineExact` | fpga/lib/eth/tb/baser_serdes_ep.py:338-355 | What the line carries of a block in every mode: which bit of tx_data is which bit of the block, combined with the bits of the line 39 and 58 places before it when scrambled. |
| `BaseRSerdes.SimClock` | fpga/lib/eth/tb/baser_serdes_ep.py:142-336 | Every clock sends the block of the word an XGMII source would send, with the same gap accounting although the gap is found from the block type. |
| `BaseRSerdes.RunMatches` | fpga/lib/eth/tb/baser_serdes_ep.py:135-355 | In every run the sink queues what the sink of an XGMII link would. |
| `BaseRSerdes.EndToEnd` | fpga/lib/eth/tb/baser_serdes_ep.py:135-675 | For any error-free frames of at least 8 bytes starting with 0x55, sent at any time, and any setting shared by both ends: the frames queued are the first of those sent, in order, and all of them once the source is empty. |
| `BaseRErrors.FlagsDeliveredR` | fpga/lib/eth/tb/baser_serdes_ep.py:135-675 | In every run and mode, for frames of any length with any error and control flags, none of them a start or an ordered set: nothing raises an exception, and the sink queues, in order, what is heard of the frames sent; and nothing is heard of a frame that has a flag in the word of its start or ends there, as the block of that word has no place for the start. |
| `BaseRErrors.ReceivedIs` | fpga/lib/eth/tb/baser_serdes_ep.py:433-675 | What is heard of any other frame: all of it, if it has no flags; else an error in place of the whole word of the first flag, or the flagged character, if it is the first of its word and has a control code. |
| `BaseRResync.AnyRegisters` | fpga/lib/eth/tb/baser_serdes_ep.py:338-431 | With scrambling, from any registers at the two ends and whatever the sink was in the middle of: after two clocks without a frame at most one frame of junk is queued, and then every run delivers as above. |
| `BaseRSerdes.AllArrive` | fpga/lib/eth/tb/baser_serdes_ep.py:135-675 | Clocked on, all frames arrive. |
| `BaseRBus.EncodeFrame` | fpga/lib/eth/tb/baser_serdes_ep.py:180-325 | The padding and encoding loops give the blocks of the specification. |
| `BaseRBus.BaseRSource.OnClock` | fpga/lib/eth/tb/baser_serdes_ep.py:142-355 | One clock of the source: block, gap, scrambler register and line. |
| `BaseRBus.BaseRSink.OnClock` | fpga/lib/eth/tb/baser_serdes_ep.py:412-675 | One clock of the sink: reversal, register, decoding and frame. |
| `AxiStream.ParseOfBuild` | fpga/lib/axi/tb/axis_ep.py:82-175 | parse undoes build for every number of lanes and lane width, with the side-band values beat by beat. |
| `AxiStream.BuildExact` | fpga/lib/axi/tb/axis_ep.py:82-138 | What the bus shows: value j*m + l of a frame is in lane l of beat j and kept, the lanes behind the last value are empty and not kept, last comes with the beat that holds that value, and the side-band values are those of their beat. |
| `AxisHandshake.BuiltOk` | fpga/lib/axi/tb/axis_ep.py:484-500 | Every beat built on one data signal with computed keep values passes the four assertions of the sink. |
| `AxisHandshake.SourceExact` | fpga/lib/axi/tb/axis_ep.py:335-375 | A valid beat stays as it is, and valid, until it is taken, whatever pause says; valid goes up only without pause; and a source with something to send is active. |
| `AxisHandshake.ClockKeeps` | fpga/lib/axi/tb/axis_ep.py:335-375 | One clock with any pauses of both ends keeps them together. |
| `AxisHandshake.RunDelivers` | fpga/lib/axi/tb/axis_ep.py:293-532 | Between resets and for all pauses the sink fails no assertion and has queued, in order and behind what it received before, the first of the frames sent. |
| `AxisHandshake.Received` | fpga/lib/axi/tb/axis_ep.py:293-532 | All of them once the source is idle. |
| `AxisHandshake.AllArrive` | fpga/lib/axi/tb/axis_ep.py:293-532 | When neither end pauses everything arrives. |
| `AxisHandshake.ResetDelivers` | fpga/lib/axi/tb/axis_ep.py:316-333 | After a common reset the frames received stay and those still queued follow. |
| `AxisReset.SinkResetExact` | fpga/lib/axi/tb/axis_ep.py:469-477 | A reset of the sink alone does no harm iff no beat is on the bus and the sink has no part of a frame. |
| `AxisReset.SinkResetBreaks` | fpga/lib/axi/tb/axis_ep.py:441-444 | After any other one some run ends with a wrong frame or one too many. |
| `AxisReset.HarmReachable` | fpga/lib/axi/tb/axis_ep.py:354-375 | The harmful state is reached one clock after any frame is sent. |
| `AxisBus.BuildFrame` | fpga/lib/axi/tb/axis_ep.py:82-138 | The loops of build meet the specification. |
| `AxisBus.ParseFrame` | fpga/lib/axi/tb/axis_ep.py:140-175 | The loops of parse meet the specification. |
| `AxisBus.CheckKeep` | fpga/lib/axi/tb/axis_ep.py:484-500 | Shifting zeros and then ones out of tkeep decides that it is non-empty, contiguous and without gaps between beats. |
| `AxisBus.AxisSource.OnClock` | fpga/lib/axi/tb/axis_ep.py:313-375 | One clock of the source is one step of the specification. |
| `AxisBus.AxisSink.OnClock` | fpga/lib/axi/tb/axis_ep.py:466-532 | One clock of the sink is one step, and fails where its assertions do. |
| `CompleterQueue.Ordered` | fpga/lib/pcie/tb/pcie_us.py:2433-2464 | In every run: credits stay within 0..32; requests of each kind are sent once and in order of arrival; none is sent before a posted request that arrived earlier (section 2.4.1 of the PCI Express Base Specification). |
| `CompleterQueue.ClockSends` | fpga/lib/pcie/tb/pcie_us.py:2433-2462 | In every run a clock sends all posted requests and, oldest first, exactly as many non-posted ones as there are credits, at most 32 with the one that npReq gives and none in reset; what is left of either stays. |
| `CompleterQueue.CreditsCover` | fpga/lib/pcie/tb/pcie_us.py:2433-2440 | In every run no more non-posted requests are sent than there were clocks with npReq and without reset. |
| `CompleterQueue.Completer.OnClock` | fpga/lib/pcie/tb/pcie_us.py:2433-2464 | The two loops of a clock meet the specification. |
| `ReadPipeline.NeverOverwrites` | fpga/lib/pcie/tb/dma_ram.py:246-263 | An accepted command never meets an occupied stage 0. |
| `ReadPipeline.AcceptsExact` | fpga/lib/pcie/tb/dma_ram.py:222-231 | A command offered is accepted iff the port is not paused and the response is taken or fewer words are in flight than it has stages and one more. |
| `ReadPipeline.EdgeKeeps` | fpga/lib/pcie/tb/dma_ram.py:231-263 | One edge takes the delivered word from the front and puts the accepted one behind the rest. |
| `ReadPipeline.RunKeeps` | fpga/lib/pcie/tb/dma_ram.py:228-263 | For every latency and every pattern of stalls and pauses, delivered words and then those in flight are the words of the accepted commands, in order. |
| `ReadPipeline.InOrder` | fpga/lib/pcie/tb/dma_ram.py:219-263 | The same from the empty pipeline. |
| `ReadPipeline.Flushes` | fpga/lib/pcie/tb/dma_ram.py:228-263 | The latency: at just as many edges with the response taken as there are stages and one more, exactly the words that were in flight are delivered. |
| `ReadPipeline.ReadPort.OnClock` | fpga/lib/pcie/tb/dma_ram.py:228-263 | The in-place loop over the stages meets the specification. |
| `DmaRam.StripesTile` | fpga/lib/pcie/tb/dma_ram.py:119-119 | Every word of the array belongs to one address of one port. |
| `DmaRam.BytesTile` | fpga/lib/pcie/tb/dma_ram.py:119-119 | So does every byte: it is in the word at just that address and port that its word number gives, divided by the number of ports. |
| `DmaRam.WordRoundTrip` | fpga/lib/pcie/tb/dma_ram.py:113-134 | A full word written is read back at its address. |
| `DmaRam.WordsApart` | fpga/lib/pcie/tb/dma_ram.py:113-134 | A write changes no word at another place of the array. |
| `DmaPorts.ReadsLastWrite` | fpga/lib/pcie/tb/dma_ram.py:90-263 | With writes through all ports interleaved at will: what a read delivers, in order, is the word as it was when the command was accepted, namely what the last full write to its place stored. |
| `Timespec.Normalise` | utils/timespec.c:319-353 | Keeps the total and gives the one normal form; overflows iff the total has none. |
| `Timespec.NormalUnique` | utils/timespec.c:319-353 | Every total has one normal form. |
| `Timespec.Add` | utils/timespec.c:70-85 | Adds totals; overflows iff an operand or the sum has no normal form. |
| `Timespec.Sub` | utils/timespec.c:87-102 | Subtracts totals; overflows iff an operand or the difference has no normal form, or the minuend is negative by less than a second and the subtrahend at LONG_MIN seconds or below. |
| `Timespec.SubFailsAt` | utils/timespec.c:94-96 | -1 ns less LONG_MIN s: both operands and the difference have a normal form, and yet it overflows. |
| `Timespec.LtExact` | utils/timespec.c:213-227 | On normal forms of any sign the lexicographic order is that of the totals. |
| `Timespec.GeExact` | utils/timespec.c:213-219 | With a full second of nanoseconds after a carry, on either side, timespec_ge is right iff it is not the left side that carries such a second against the next whole one. |
| `Timespec.HalveUndoesDouble` | utils/timespec.c:141-174 | The halving step exactly undoes the doubling step, carries included. |
| `Timespec.ReduceExact` | utils/timespec.c:153-174 | Shift and subtract gives the remainder if the doublings reach beyond the dividend. |
| `Timespec.DoubleUp` | utils/timespec.c:139-151 | Where the doubling loop stops: above the dividend or at half of LONG_MAX seconds. |
| `Timespec.SubtractDown` | utils/timespec.c:153-174 | The subtraction loop ends with the remainder and the divisor restored. |
| `Timespec.FloorModUnique` | utils/timespec.c:104-192 | The floored modulo is the only number with the divisor's sign that differs by a multiple. |
| `Timespec.Modulo` | utils/timespec.c:104-192 | For a zero divisor timespec_mod returns the dividend; else it overflows iff an operand has no normal form or is at LONG_MIN seconds or below, and is the floored modulo on total nanoseconds iff the pair is outside ModFails. |
| `Timespec.NegationFailsAt` | utils/timespec.c:124-136 | A dividend of LONG_MIN s is in normal form and cannot be negated. |
| `Timespec.ModHolds` | utils/timespec.c:104-192 | Nothing fails for dividends below LONG_MAX - 1 seconds. |
| `Timespec.ModFailsAt` | utils/timespec.c:141-151 | At LONG_MAX - 1 seconds it does: with half of that as the divisor the divisor itself is returned. |
| `Timespec.MsRoundTrip` | utils/timespec.c:286-310 | Milliseconds survive the way to a pair and back. |
| `Timespec.AlignStart` | utils/mqnic-config.c:203-234 | A start in the past is moved to one congruent to it modulo the period, strictly within a period of now; any other is kept; and it still lies in the past iff its phase is before that of now. |
| `NorFlash.EraseThenProgram` | utils/flash_spi.c:422-575 | Programming an erased range replaces it and nothing else. |
| `NorFlash.ProgramNeedsErase` | utils/flash_spi.c:422-491 | Programming a range as it is replaces it iff no bit has to be set again. |
| `NorFlash.Write` | utils/flash_spi.c:422-491 | The page loop programs exactly the data iff no write enable it sends fails, and else nothing but the whole pages before that. |
| `NorFlash.Erase` | utils/flash_spi.c:493-575 | Erases exactly the range iff it is aligned and no write enable fails; else a prefix of whole blocks, all there are unless a write enable fails, and reports it. |
| `NorFlash.Read` | utils/flash_spi.c:362-420 | Reads the range unless it crosses 16 MiB with a three-byte address. |
| `NorFlash.FetchesInPlace` | utils/flash_spi.c:373-398 | And that is the exact condition. |
| `FlashTool.SegmentsTile` | utils/mqnic-fw.c:143-176 | The segments tile the range in order. |
| `FlashTool.SegmentsInStep` | utils/mqnic-fw.c:143-176 | No segment straddles a 64 KiB boundary iff the range is longer than that, fits, or is empty. |
| `FlashTool.SegmentsReach` | utils/mqnic-fw.c:133-181 | All segments are read in place iff the range is longer than 64 KiB or does not cross 16 MiB. |
| `FlashTool.ReadProgress` | utils/mqnic-fw.c:133-181 | The read loop over segments returns the range under that condition. |
| `FlashTool.WriteProgress` | utils/mqnic-fw.c:183-233 | The write loop over segments programs the whole range iff no write enable fails, and else a prefix of it, and reports so. |
| `FlashTool.EraseProgress` | utils/mqnic-fw.c:235-284 | Erasing by segments has the result of one request for the whole range. |
| `FlashTool.Program` | utils/mqnic-fw.c:1002-1045 | When programming reports success the rounded range holds the segment and all else is unchanged; and of an aligned segment that is read in place it does so iff no write enable fails. |
| `FlashTool.Verify` | utils/mqnic-fw.c:1029-1041 | Reading back passes iff the range holds the image, where it is read in place. |
| `FlashTool.SplitImage` | utils/mqnic-fw.c:899-922 | The nibbles of an image go to the two chips. |
| `FlashTool.NibblesWhere` | utils/mqnic-fw.c:916-922 | The primary chip gets the low halves of a pair of bytes and the secondary one the high halves, the first of the pair above. |
| `FlashTool.MergeImage` | utils/mqnic-fw.c:1065-1078 | The halves of two chips make an image. |
| `FlashTool.DualImageRoundTrip` | utils/mqnic-fw.c:916-1078 | Merging undoes splitting up to the last 0x68 bytes, so an image survives iff these are 0xff. |
| `DualFlash.ProgramDual` | utils/mqnic-fw.c:886-999 | Erase, write and verify on both chips: success leaves the programmed lengths of both halves in place and all else as it was; and of an aligned segment that is read in place it is had iff no write enable of either chip fails. |
| `DualFlash.ReadDual` | utils/mqnic-fw.c:1055-1082 | Reads both chips and merges the halves. |
| `DualFlash.DualProgramRead` | utils/mqnic-fw.c:886-1082 | After programming and reading back, the image survives iff what lies beyond the pairs programmed was there before. |
| `DualFlash.ProgramThenRead` | utils/mqnic-fw.c:886-1082 | The same from what ProgramDual leaves on the chips and ReadDual finds there. |
| `DualFlash.DualLenExact` | utils/mqnic-fw.c:904-928 | The whole image is programmed iff it leaves 0x68 bytes at the end of the segment and is of even length or rounding up to the erase block adds a byte per chip. |
| `Stristr.Search` | utils/mqnic-fw.c:78-118 | Terminates although its scan pointer moves backwards; returns the leftmost case-insensitive occurrence, and none exactly when there is none. |
| `Stristr.SameLetter` | utils/mqnic-fw.c:78-118 | Two characters match iff they are the same, or the same letter in upper and lower case. |

## Left out

- Teardown of rings, `port_up` and queue-mapping checks, checksum and timestamp requests, linearising and DMA
  mapping of fragments: foreign calls and plumbing around the protocol. An skb dropped before mapping changes
  nothing that is modelled.
- TxDriver.TxRing.OthersThanPoll: stands for other threads between two accesses; its body is empty and
  `TxDriver.OthersLeavePoll` shows that every step of them meets its contract.
- TxDriver.TxRing.OthersThanXmit: the same for start_xmit, by `TxDriver.OthersLeaveXmit`.
- RxDriver.RxRing.NicRuns: the same for the NIC, by `RxDriver.NicLeavesDriver`.
- PacketDriver.Driver.Others: the same for the other coroutines, by `PacketDriver.OthersRunKeepsStill`.
- PacketPool.PoolKept: contents of buffers and descriptors are not modelled; the routines' steps may also come
  in other orders than the coroutines take them.
- The event queue (`mqnic_eq.c`), PTP registers and the kernel entry points.
- AXI write responses and the per-channel handshakes between master and RAM: channels are queues, and the RAM
  serves a burst as one step. Addresses are below 2^53, where `int(a/b)` is integer division.
- AxisHandshake.BuiltOk: frames with keep values of their own and buses of several data signals are not
  modelled; there `build` passes the given values or 0 on, and 0 fails the sink's first assertion.
- XgmiiErrors.FlagsDelivered: of frames with flags that end in the word of their start nothing is said; of those
  without, `XgmiiRuns.RunExact` does. The bus is a sequence of lanes.
- BaseRErrors.FlagsDeliveredR: frames with a byte flagged as a start or an ordered set are left out; single words
  with them are the subject of `BaseRSerdes.WordTrip`.
- BaseRSerdes.EndToEnd: the scrambler register is the list of the last 58 bits. Different settings at the two
  ends are not modelled.
- TLP packing, completions and the requester side of `pcie_us.py`: requests are posted or non-posted tokens.
- DmaPorts.ReadsLastWrite: writes of a part of a word are covered by `DmaRam.WordsApart` for other places only;
  the byte view of one word is that of `AxiRam.RamPort.WriteWord`.
- FlashTool.Program: an image whose length rounded up to the erase block passes the end of its segment buffer
  is not modelled; the tool reads on behind the buffer then.
- DualFlash.ProgramDual: the same for the halves of the segment.
- Busy-waiting, protocols other than one data line, dummy cycles and the BPI driver of the flash; a read counter
  that wraps at 16 MiB in three-byte mode is an assumption about the chip. Images shorter than their header and
  segments of odd size do not occur in the dual path.
- Timespec conversions to and from `double` and `timeval`, and the printing and option parsing of the tools.
- AXI-Lite, the simpler copies of the modelled bus files and the endpoints that only pack headers.
