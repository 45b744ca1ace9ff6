# A verified model of the HyperRAM controller and of its Nios V board support package

Six parts of the repository are modelled and proved here, each with the properties its users depend on.

**JTAG UART driver** (`Ring`, `JtagUart`, `JtagUartRuns`, `JtagUartCalls`, `JtagUartIsr`,
`JtagUartSmall`). The interrupt-driven
driver shares two ring buffers between threads and an interrupt routine that may cut in between any two memory
accesses, in the middle of a block copy too. It is a state machine whose steps are single accesses; the theorems hold
for every interleaving of writer, reader, closer, interrupt routine, once-a-second timer and host; `JtagUartCalls` says
how much a call moves, when it waits and when it ends. The interrupt
routine is also given as the loops it consists of, over the buffers as arrays, and proved to end and to do what a
sequence of machine steps does. The polling driver is the simple form the interrupt-driven one refines.

**Device feature lists** (`DflTree`, `DflVector`, `DflWalker`, `DflInputs`). The walk reads linked, branching lists of 64-bit
words. A list is well formed when it has a finite tree; memory determines that tree. The walk, its parent stack and
the growable vector with its nested allocations are classes with loops and mutual recursion; their contracts refer to
the tree. `DflInputs` lays out in memory the lists on which the walk goes wrong, and
one with every kind of entry.

**HyperRAM controller** (`HyperRam`, `HyperRamBursts`, `HyperRamRuns`, `HyperRamRequests`, `HyperRamLatency`,
`HyperRamPads`, `HyperRamMiss`, `HyperRamBlocks`, `HyperRamChip`). One function per clock edge over the product of the controller and its three burst
engines, for arbitrary inputs in every cycle; the theorems hold in every state that any sequence of cycles reaches from
reset. `HyperRamRequests` says which requests are taken and for which address, `HyperRamLatency` bounds how long a request takes. `HyperRamPads` adds the outputs nothing reads back. `HyperRamBlocks` has the clocked blocks as classes over
arrays, and `HyperRamChip` runs them from reset: they hold what the function reaches, and the theorems about bursts are
about their arrays.

**Alarms** (`AlarmRuns`, `AlarmCalls`, `Alarms`). The circular, doubly linked list of alarms with its head node, a tick that walks it
while callbacks unregister their own alarms, and the timing of alarms over every run.

**File descriptors** (`FdPool`, `FdCalls`, `FdTable`). Allocation, release, failed opens and exclusive access, over every run of
open, close, ioctl and redirection of the standard descriptors.

**Printing and time of day** (`Printing`, `TimeOfDay`). The integer conversion of the log printer and the hexadecimal
one of the small printf, with 32-bit wrap-around; the wall clock.

`Runs` folds a step function over a sequence of actions, `Sequences` holds facts about sequences.

## What the code does and its documentation does not say

The code is followed in every case; each failure comes with its exact condition and with a concrete input.

- The parent of a feature reached through the second branch block of one feature is recorded wrongly: the walk takes the
  entry it wrote last as the parent. Recorded parents are right exactly when no feature has two branch blocks
  (`DflWalker.ParentsRight`; a list in memory and what a scan of it records: `DflInputs.ScanTwoBranches`).
- The parent stack starts with `top` 0 and no room, and grows when `top` equals its size: a store goes outside its room
  exactly when eight lists are open at once (`DflWalker.Walker.Scan`; a list in memory for every depth:
  `DflInputs.ScanNested`).
- Exclusive access to a device is granted without a look at the descriptor at the high water mark
  (`FdPool.LockGrant`, `FdPool.LockMissesTheLast`).
- Closing descriptor 0, 1 or 2 does not give up a lock (`FdPool.CloseLeavesLockIff`; three calls after which a
  closed device cannot be opened: `FdPool.StandardLockOutlivesClose`).
- The wall clock is exact if and only if the tick rate divides a million, and it never goes back if and only if the rate
  divides a million or is above it (`TimeOfDay.ExactIffDivides`, `TimeOfDay.MonotoneIff`, `TimeOfDay.NeverBackIff`); at 60
  ticks a second it goes back (`TimeOfDay.SixtyRunsBackwards`).
- A blocking `write` that has moved all of its argument returns the length of it, as the polling driver's always does,
  unless that length is zero: then it reports -EIO (`JtagUartRuns.WriteReturnsLength`; such a call from power-up:
  `JtagUartRuns.EmptyWriteFails`).
- On a write miss the line is packed before the new word enters the buffer, so what the write burst sends is the line from
  before; it holds the new word if and only if that word was there already (`HyperRamRuns.WriteTakesEntry`; a run from reset
  that sends what the memory held for a word written: `HyperRamMiss.MissSendsTheOldWord`).
- The first halfword of a line that is sent is on the data pins in the cycle after the command, with RWDS not yet driven;
  RWDS is driven for the other fifteen and a zero, which are the line if and only if it is all zero
  (`HyperRamPads.MaskedLine`; a run from reset in which they are not: `HyperRamMiss.MissMasksAnotherLine`). In the cycle
  after a read burst the memory clock runs with chip select high, and in no other (`HyperRamPads.ClockAndMask`).
- In `rdreg_stm` an `else` is missing after the last data cycle: the counter is left at 15, which does no harm because
  the idle state clears it (`HyperRamRuns.RegisterRead`).

## Model

| member | source | states |
|---|---|---|
| JtagUartRuns.TransmitStream | drivers/src/altera_avalon_jtag_uart_write.c:96-123 | in every reachable state the bytes accepted by write, of finished and running calls, are those the host took, then the hardware FIFO, then the transmit ring, in order; the data-register history is the first two |
| JtagUartRuns.ReceiveStream | drivers/src/altera_avalon_jtag_uart_read.c:111-142 | the bytes popped with RVALID are those handed to callers of read, then the receive ring; with the FIFO they are all the host sent, so no unread byte is overwritten, across the wrap too |
| JtagUartRuns.StaleCopyIsSafe | drivers/src/altera_avalon_jtag_uart_write.c:102-122 | during a block copy the writer's old copy of tx_out never claims more room than there is, no slot of the block is one the interrupt routine may read, and publishing leaves a slot free |
| JtagUartRuns.NoLostWakeup | drivers/src/altera_avalon_jtag_uart_write.c:122-135 | a non-empty transmit ring implies WE is set in the copy and in the device, unless the writer stands between moving tx_in and its own enable |
| JtagUartRuns.NoStuckReceiver | drivers/src/altera_avalon_jtag_uart_read.c:136-191 | RE clear implies a full receive ring, unless the reader stands between moving rx_out and enabling RE again |
| JtagUartRuns.TransmitOffOnlyWhenEmpty | drivers/src/altera_avalon_jtag_uart_init.c:193-201 | whatever step clears WE is one of the interrupt routine, taken with an empty transmit ring |
| JtagUartRuns.ReadEndsWithInterruptsOn | drivers/src/altera_avalon_jtag_uart_read.c:184-191 | over every run: whatever step ends a call of read that moved a byte leaves RE set in the copy and in the device |
| JtagUartRuns.ErrorMeansNothingMoved | drivers/src/altera_avalon_jtag_uart_write.c:195-210 | a finished read or write returned an error if and only if it moved no byte, the count moved otherwise, and which error depends on the blocking mode |
| JtagUartRuns.ActiveHostServesBlockingCalls | drivers/src/altera_avalon_jtag_uart_read.c:140-174 | while the host was never seen inactive, and with a timeout above zero, blocking writes moved everything and blocking reads with room something |
| JtagUartRuns.WriteReturnsLength | drivers/src/altera_avalon_jtag_uart_write.c:195-210 | in every reachable state a finished blocking write returned the length of its argument if and only if that is not empty and all of it was moved; under a host that stayed active, if and only if it is not empty |
| JtagUartRuns.EmptyWriteFails | drivers/src/altera_avalon_jtag_uart_write.c:195-210 | from power-up, a blocking write of no bytes finishes with -EIO |
| JtagUartCalls.WriteFills | drivers/src/altera_avalon_jtag_uart_write.c:96-152 | a call of write, blocking or not, whatever happens meanwhile, moves all of its argument or at least as many bytes as slots were free when it was called |
| JtagUartCalls.WriteStopsFull | drivers/src/altera_avalon_jtag_uart_write.c:99-123 | in every reachable state a writer that has stopped copying short of its argument last saw a full ring, and each block it copies is as long as the argument, the buffer and the room allow |
| JtagUartCalls.WriteEnds | drivers/src/altera_avalon_jtag_uart_write.c:96-197 | a write that is not to block ends within 4 n + 7 turns of its own for n bytes, and so does any write while the host has been inactive for its timeout |
| JtagUartCalls.WriteWaits | drivers/src/altera_avalon_jtag_uart_write.c:137-192 | a blocking write that found the ring full waits as long as it stays full and the host has not timed out |
| JtagUartCalls.WriteResumes | drivers/src/altera_avalon_jtag_uart_write.c:137-192 | once bytes have been sent and under an active host it copies again by its sixth turn |
| JtagUartCalls.ReadTakes | drivers/src/altera_avalon_jtag_uart_read.c:111-145 | a call of read moves at least as many bytes as were in the ring when it was called, or fills its space |
| JtagUartCalls.ReadStopsEmpty | drivers/src/altera_avalon_jtag_uart_read.c:116-138 | in every reachable state a reader that has stopped copying short of its space last saw an empty ring, and each block it copies is as long as can be |
| JtagUartCalls.ReadEnds | drivers/src/altera_avalon_jtag_uart_read.c:111-202 | a read that is not to block ends within 8 n + 15 turns of its own for a space of n, and so does any read while the host has been inactive for its timeout |
| JtagUartCalls.ReadWaits | drivers/src/altera_avalon_jtag_uart_read.c:140-174 | a blocking read with nothing to return waits as long as the ring stays empty and the host has not timed out |
| JtagUartCalls.ReadResumes | drivers/src/altera_avalon_jtag_uart_read.c:140-174 | once bytes have come in it copies by its sixth turn |
| JtagUartCalls.CloseReturnsWhy | drivers/src/altera_avalon_jtag_uart_init.c:248-261 | over every run close returns 0 only with an empty ring or a host that has timed out, and -EWOULDBLOCK only when it is not to block and the host has not timed out |
| JtagUartCalls.CloseOfEmpty | drivers/src/altera_avalon_jtag_uart_init.c:248-261 | a close called with nothing left to send returns 0, blocking or not |
| JtagUartCalls.CloseEnds | drivers/src/altera_avalon_jtag_uart_init.c:248-261 | a close returns by its second turn if it is not to block, and while the ring is empty, and while the host has timed out |
| JtagUartCalls.CloseWaits | drivers/src/altera_avalon_jtag_uart_init.c:248-261 | a blocking close waits as long as bytes are left and the host has not timed out |
| JtagUartCalls.SilenceCounts | drivers/src/altera_avalon_jtag_uart_init.c:210-233 | while the host is silent each tick of the timer counts one second more, up to a bound; the first tick after activity sets the count to zero |
| JtagUartCalls.ActivityIsMarked | drivers/src/altera_avalon_jtag_uart_init.c:210-216 | the mark of host activity goes up when a byte crosses and only then |
| JtagUartRuns.FastRefinesSmall | drivers/src/altera_avalon_jtag_uart_init.c:248-261 | with an active host and blocking writes the data-register history is a prefix of the arguments of the calls so far, one after the other, and equals them once close has returned 0 |
| JtagUart.StepKeeps | drivers/src/altera_avalon_jtag_uart_init.c:118-261 | every step of writer, reader, closer, interrupt routine, timer and host keeps the invariant behind all of these |
| JtagUartRuns.ReachKeeps | drivers/src/altera_avalon_jtag_uart_init.c:66-96 | the invariant holds from initialisation on, after any run |
| JtagUartRuns.ExecKeeps | drivers/src/altera_avalon_jtag_uart_init.c:118-261 | every run, of any length and order, keeps the invariant |
| JtagUart.CopyStream | drivers/src/altera_avalon_jtag_uart_write.c:118-120 | one byte of a block copy, with the interrupt routine free to run around it, leaves the accepted stream unchanged |
| JtagUart.PublishStream | drivers/src/altera_avalon_jtag_uart_write.c:119-122 | moving tx_in adds just the bytes of the caller that were copied to the accepted stream, and the stream is still the data-register history and the ring |
| JtagUart.DrainStream | drivers/src/altera_avalon_jtag_uart_init.c:175-185 | sending one byte moves it from the ring to the end of the data-register history |
| JtagUart.FillStream | drivers/src/altera_avalon_jtag_uart_init.c:138-151 | receiving one byte moves it from the FIFO to the end of the ring |
| JtagUart.TakeStream | drivers/src/altera_avalon_jtag_uart_read.c:132-134 | one byte of the copy out of the ring comes from a slot that holds an unread byte and is not the one the interrupt routine fills next, and it continues the stream |
| Ring.PutBlock | drivers/src/altera_avalon_jtag_uart_write.c:105-122 | publishing a block of free slots up to the end of the buffer appends it to the ring contents, the wrap of the index included |
| Ring.TakeBlock | drivers/src/altera_avalon_jtag_uart_read.c:121-136 | the oldest bytes up to the end of the buffer are one block, and advancing past it drops just those |
| Ring.FullTest | drivers/src/altera_avalon_jtag_uart_init.c:138-140 | the one-ahead test recognises exactly the ring with one slot free |
| JtagUartIsr.IsrState.Irq | drivers/src/altera_avalon_jtag_uart_init.c:118-204 | the interrupt routine ends when the host does nothing during it, and its whole effect on buffers, indices and enable bits is that of a sequence of machine steps |
| JtagUartIsr.IsrState.Receive | drivers/src/altera_avalon_jtag_uart_init.c:126-168 | the receive loop, over the array, equals the receive half of a pass: it empties the FIFO or fills the ring and then clears RE |
| JtagUartIsr.IsrState.Transmit | drivers/src/altera_avalon_jtag_uart_init.c:170-202 | the transmit loop, over the array, equals the transmit half: it uses up the reported space or empties the ring and then clears WE |
| JtagUartIsr.PassMakesProgress | drivers/src/altera_avalon_jtag_uart_init.c:118-203 | each pass with something pending lessens bytes to pop, room to fill and interrupts left on, taken together |
| JtagUartIsr.OutcomeServes | drivers/src/altera_avalon_jtag_uart_init.c:118-204 | a turn of the outer loop empties the receive FIFO or turns that interrupt off with a full ring, when the host pauses or the FIFO is nearly full; it fills the transmit FIFO or turns that interrupt off with an empty ring, when the FIFO is nearly empty |
| JtagUartIsr.FillAllUses | drivers/src/altera_avalon_jtag_uart_init.c:133-157 | the receive loop stops with the FIFO empty or with data reported as left over |
| JtagUartIsr.PassIsRun | drivers/src/altera_avalon_jtag_uart_init.c:118-203 | reading the control register and the pass it starts are together a run of interrupt steps |
| JtagUartSmall.SmallUart.Write | drivers/src/altera_avalon_jtag_uart_write.c:59-71 | a call that finishes returns the count and has sent exactly its argument; one still waiting has sent a prefix, with one byte from each poll that found room |
| JtagUartSmall.SmallUart.WriteAll | drivers/src/altera_avalon_jtag_uart_write.c:59-71 | a sequence of finished calls has sent their arguments, one after the other |
| JtagUartSmall.SmallUart.WriteLikeFast | drivers/src/altera_avalon_jtag_uart_write.c:59-71 | the same calls made on the polling driver: what the interrupt-driven one has put in the data register, in any run with an active host and blocking writes, is a prefix of what the polling driver has, and is equal to it once close has returned 0 |
| JtagUartSmall.SmallUart.Read | drivers/src/altera_avalon_jtag_uart_read.c:60-88 | the bytes returned are those popped, the code is their number or the error for none; a read that finishes short of its space has found the FIFO empty; one still unfinished has room left, and has taken a byte in every poll since the first that found one |
| DflTree.ChainIsUnique | HAL/src/intel_fpga_api_cmn_dfl.c:201-263 | memory determines the tree of a well-formed list |
| DflTree.BlocksAdvance | HAL/src/intel_fpga_api_cmn_dfl.c:624-631 | in a well-formed list a block that is not the last is at least as long as its header, so no data size is negative |
| DflTree.BlockHeaderFields | HAL/src/intel_fpga_api_cmn_dfl.c:342-363 | identifier, version, last mark, offset and two reserved bits tile a block header |
| DflTree.FeatureHeaderFields | HAL/src/intel_fpga_api_cmn_dfl.c:273-281 | the end mark, the offset of the next header and the bits nothing reads tile a feature header |
| DflTree.CsrWordFields | HAL/src/intel_fpga_api_cmn_dfl.c:322-332 | instance, group and the mark for parameters tile the low half of a CSR word |
| DflTree.BranchAligned | HAL/src/intel_fpga_api_cmn_dfl.c:450-466 | an absolute branch leads to a multiple of 8, a relative one to a multiple of 8 away from the header, each less than 8 below what its word says |
| DflTree.BaseAddressIs | HAL/src/intel_fpga_api_cmn_dfl.c:398-423 | a base address is the CSR word without its mark, counted from address 0 when the mark says absolute and from the header when it does not |
| DflTree.NextIs | HAL/src/intel_fpga_api_cmn_dfl.c:273-281 | the next header and the next block are as far from this one as it says |
| DflTree.ParentsOwn | HAL/src/intel_fpga_api_cmn_dfl.c:435-473 | the intended parents mean what they should: each feature sits in a list that a block of its parent leads to, or at the top with parent -1 |
| DflTree.RecordedRight | HAL/src/intel_fpga_api_cmn_dfl.c:439-439 | the parents the walk computes equal the intended ones if and only if no visited feature has two branch blocks |
| DflInputs.ScanTwoBranches | HAL/src/intel_fpga_api_cmn_dfl.c:439-439 | a list in memory with two branch blocks in its first feature: a scan records parents -1, 0, 1 where -1, 0, 0 are meant, and the right base addresses |
| DflInputs.ScanSample | HAL/src/intel_fpga_api_cmn_dfl.c:191-263 | a list in memory with two features, a branch, both kinds of base address, and data, branch and null blocks: every field of every entry a scan leaves |
| DflInputs.ScanNested | HAL/src/intel_fpga_api_cmn_dfl.c:148-157 | for every depth that fits the address range a list in memory of that depth; a scan stores outside its stack if and only if the depth is eight or more |
| DflInputs.NestIsChain | HAL/src/intel_fpga_api_cmn_dfl.c:435-473 | those nested lists are well formed in memory, and as deep as they claim |
| DflWalker.ParentsRight | HAL/src/intel_fpga_api_cmn_dfl.c:666-679 | the same for the entries a scan leaves in the vector |
| DflWalker.WrittenEntry | HAL/src/intel_fpga_api_cmn_dfl.c:201-263 | what the recursion writes is, entry by entry, the pre-order of the tree with the recorded parents |
| DflWalker.CountVisits | HAL/src/intel_fpga_api_cmn_dfl.c:201-207 | the number the counting pass reaches is the number of features in pre-order |
| DflWalker.Walker.Scan | HAL/src/intel_fpga_api_cmn_dfl.c:159-180 | both passes agree: vector size, count and last index plus one are equal; the stack ends as it began; stores stay inside its room if and only if fewer than eight lists are open at once, and then entry i describes the i-th feature in pre-order; no runtime exception is raised |
| DflWalker.Walker.ScanAndRelease | HAL/src/intel_fpga_api_cmn_inf.c:89-138 | resizing to nothing after a scan leaves no allocated block |
| DflWalker.Walker.DealWithInterfaces | HAL/src/intel_fpga_api_cmn_dfl.c:201-263 | one call visits a list with everything below it, takes exactly one entry off the stack, keeps those below, counts in one pass and writes the next entries in the other; the recursion ends |
| DflWalker.Walker.ProcessParamList | HAL/src/intel_fpga_api_cmn_dfl.c:488-537 | the loop follows all branch blocks of a feature in order and leaves the stack as it was |
| DflWalker.Walker.HandleBranch | HAL/src/intel_fpga_api_cmn_dfl.c:435-473 | a branch block's list is visited under the entry written last, the stack is balanced |
| DflWalker.Walker.CollectInterfacesInfo | HAL/src/intel_fpga_api_cmn_dfl.c:191-199 | every index written lies below the size the counting pass gave |
| DflWalker.Walker.Push | HAL/src/intel_fpga_api_cmn_dfl.c:148-157 | a push stores inside the room unless it is the eighth; the flag says which |
| DflWalker.Walker.StackResize | HAL/src/intel_fpga_api_cmn_dfl.c:93-121 | growing zeroes the new entries, zero frees, shrinking raises |
| DflVector.InfoVector.Resize | HAL/src/intel_fpga_api_cmn_inf.c:89-138 | kept entries stay, entries past the new size are zeroed, the room only shrinks to nothing, every block stays owned exactly once, and size zero leaves no block |
| DflVector.InfoVector.Reserve | HAL/src/intel_fpga_api_cmn_inf.c:95-138 | the same for reserve, which lowers the size but never raises it |
| DflVector.ResizedIs | HAL/src/intel_fpga_api_cmn_inf.c:95-138 | entries below both sizes are kept, all others are zero, and the room is the larger of the two unless the size is zero |
| DflVector.InfoVector.FreeTail | HAL/src/intel_fpga_api_cmn_inf.c:113-123 | the freeing loops free exactly what the dropped entries own, each block once |
| DflVector.InfoVector.ParseBlocks | HAL/src/intel_fpga_api_cmn_dfl.c:599-664 | the stored array is what the blocks say, data sizes are multiples of 8, every block allocated is owned by the entry |
| DflVector.InfoVector.FillParam | HAL/src/intel_fpga_api_cmn_dfl.c:615-636 | one parameter gets version, identifier, size and data of its block; the array exists from the first on |
| DflVector.InfoVector.ParamDataCopy | HAL/src/intel_fpga_api_cmn_dfl.c:385-396 | the copied words are those after the header, as many as the data size holds |
| DflVector.InfoVector.ParamDataAllocate | HAL/src/intel_fpga_api_cmn_dfl.c:369-383 | one new block, owned by the parameter; an exception exactly for a size that is no multiple of 8 |
| DflVector.InfoVector.ParamBlockResize | HAL/src/intel_fpga_api_cmn_dfl.c:563-592 | growing appends zeroed entries, frees the old array and owns the new one; the same size changes nothing; truncation raises and changes nothing; zero gives up the array and leaves just the data blocks of its entries without an owner |
| DflVector.InfoVector.SetInterfaceProperties | HAL/src/intel_fpga_api_cmn_dfl.c:666-679 | an entry describes its feature: base address, GUID, identifiers, parent and parameters; no other entry changes |
| DflVector.ParamsCount | HAL/src/intel_fpga_api_cmn_dfl.c:607-660 | one parameter for each block with data, and one zeroed one when a null block ends a list that has any |
| HyperRamRuns.LineFill | hyperram_controller.sv:245-272 | whenever the controller leaves RDMEM2, after any waits for RWDS, the engine was started once, sixteen halfwords were sampled, eight words shifted in, and buffer entry k holds halfwords 2k and 2k+1 |
| HyperRamRuns.LineWrite | comp_stm.sv:175-249 | a write burst shifts out the three command words and the sixteen halfwords of the packed line, none skipped or repeated, and the data pins carry just those while driven |
| HyperRamRuns.WriteThenRead | comp_stm.sv:351-383 | if the halfwords sampled in one burst are those another shifted out after its command, the buffer ends up with the line that was sent |
| HyperRamRuns.RegisterRead | comp_stm.sv:42-90 | a register read starts its engine once, drives just its command and keeps the one halfword it sampled |
| HyperRamRuns.OneBurst | hyperram_controller.sv:183-287 | at most one engine is asked to run, the one of the controller's state; an end signal is up only in the burst it ends or where nothing looks at it |
| HyperRamRuns.OneAnswer | hyperram_controller.sv:148-223 | accepted reads equal cycles with readdatavalid plus at most one in flight, and are equal to them when the controller is idle |
| HyperRamRequests.IdleTakes | hyperram_controller.sv:136-182 | what the idle controller takes, in terms of the last two cycles of the bus and the row and page presented: only a request that was not there one cycle before, register before memory, reads before writes, and a hit exactly when row and page are those of the buffer |
| HyperRamRequests.TagsFollow | hyperram_controller.sv:245-280 | the buffer is marked with the row and page presented in the cycle that ends the read burst of a read, or a write burst, and with nothing else |
| HyperRamRequests.AddressesCaptured | hyperram_controller.sv:313-319 | the captured addresses are those of the last cycle in which the bus asked for a register, and for memory |
| HyperRamRequests.RegisterCommand | hyperram_controller.sv:183-199 | a register read sends the command that reads the register at the captured address, with its word address in the command, and keeps it for the burst |
| HyperRamRequests.RegisterWrite | hyperram_controller.sv:200-208 | a register write asks its engine to run until that reports its end, and then takes the request back and is idle |
| HyperRamRequests.BurstsFollowTheBus | comp_stm.sv:74-85 | the command of a memory burst is the one presented in its second cycle, a sample is what the data bus carries, and valid register data is what it carried one cycle before |
| HyperRamRuns.MissAnswer | hyperram_controller.sv:209-223 | a read that misses is answered two cycles after its burst: at offset 4 k with word k of the sampled line, at any other with zero |
| HyperRamRuns.HitAnswer | hyperram_controller.sv:160-223 | a read of the row and page in the buffer is answered two cycles later: at offset 4 k with word k of the line buffer, at any other with zero |
| HyperRamRuns.WriteTakesEntry | hyperram_controller.sv:224-244 | a write at offset 4 k changes entry k and no other, one at any other offset clears entry 0; a hit is then done, a miss goes on to send the line from before, which is the line with the new word if and only if that word was there already |
| HyperRamMiss.MissSendsTheOldWord | hyperram_controller.sv:175-244 | a run from reset: a word written to another row is in the line buffer at the end of the write burst, and the burst has sent what the memory held, in its place too |
| HyperRamRuns.BufferSent | hyperram_controller.sv:224-287 | whenever a write burst ends the line it sent is the line buffer in all entries but at most one |
| HyperRamRuns.BurstLength | comp_stm.sv:28-395 | in every reachable state a burst has taken at most 41, 38 or 22 cycles besides those it waited for RWDS |
| HyperRamLatency.ReadLatency | hyperram_controller.sv:148-272 | a memory read accepted in any reachable state is answered within 43 cycles besides those with RWDS low, whatever the inputs |
| HyperRamLatency.WriteLatency | hyperram_controller.sv:148-294 | after a memory write accepted in any reachable state the controller is idle again within 91 such cycles |
| HyperRamRuns.SamplesUndriven | hyperram_controller.sv:321-343 | the data bus is sampled only with chip select low and the controller's own drivers off |
| HyperRamRuns.CycleKeeps | hyperram_controller.sv:105-298 | every clock cycle, whatever the inputs, keeps the invariant behind these |
| HyperRamRuns.ReachKeeps | hyperram_controller.sv:105-298 | and so does every sequence of cycles from reset |
| HyperRamBursts.RdStep | comp_stm.sv:304-395 | at each point of a read burst the engine's registers are what the cycles so far and the samples determine |
| HyperRamBursts.WrStep | comp_stm.sv:160-258 | the same for a write burst and its shift register |
| HyperRamBursts.UnpackPack | hyperram_controller.sv:241-241 | cutting a packed line into words gives the line back |
| HyperRamPads.ClockAndMask | hyperram_controller.sv:321-343 | in every reachable state: the memory is clocked whenever the data bus is sampled or RWDS is driven, it is clocked without chip select only in the cycle after a read burst, and RWDS is driven only together with the data pins and always low |
| HyperRamPads.ClockEnable | comp_stm.sv:28-258 | in every reachable state of a burst the clock enable, and that of RWDS, depend on the burst time alone, which stands still while RWDS is awaited |
| HyperRamPads.MaskedLine | comp_stm.sv:226-249 | in every write burst the halfwords on the data pins while RWDS is driven are those of the line but its first, and a zero; they are the line if and only if it is all zero |
| HyperRamMiss.MissMasksAnotherLine | comp_stm.sv:226-249 | a run from reset in which they are not the line that was sent |
| HyperRamPads.PadCycle | hyperram_controller.sv:300-345 | every clock cycle, whatever the inputs, keeps the enables where the burst time puts them |
| HyperRamChip.RunFromReset | hyperram_controller.sv:105-395 | the clocked blocks through any sequence of cycles from reset: they hold what the run of the clock function reaches, the outputs included; when the last cycle ends a read burst the array of the line buffer holds the sixteen samples, when it ends a write burst that array, but for at most one entry, was shifted out after the command |
| HyperRamChip.Chip.Edge | hyperram_controller.sv:105-395 | one edge of all blocks, one after the other, is one simultaneous step |
| HyperRamBlocks.CtlBlock.Edge | hyperram_controller.sv:105-319 | the registers of the controller, with the address captured for the decoder |
| HyperRamBlocks.RdRegBlock.Edge | comp_stm.sv:28-96 | the register-read engine with its clock enable, its missing else included |
| HyperRamBlocks.RdMemBlock.Edge | comp_stm.sv:304-395 | the memory-read engine with its clock enable |
| HyperRamBlocks.WrMemBlock.Edge | comp_stm.sv:160-258 | the memory-write engine with its clock enable and RWDS |
| HyperRamBlocks.ShiftIn | hyperram_controller.sv:264-270 | the shift loop moves every entry one place down and puts the new one last |
| AlarmRuns.AlarmsOnTime | HAL/src/alt_tick.c:94-123 | over every run each alarm, registered still or removed, was called exactly at registration tick plus delay plus one and then at the sums of its returned periods; for a registered one the next such time is its time and still lies ahead of the tick counter, so none has passed without a call |
| AlarmCalls.RepliesDecide | HAL/src/alt_tick.c:98-121 | over every run an alarm on the list was never called with a reply that stops it, every period it waited for is one its callback returned, and a removed one has had no call after such a reply |
| AlarmCalls.OnlyRepliesRemove | HAL/src/alt_tick.c:98-121 | when nobody else stops alarms, each removed one left by the reply to its last call |
| AlarmCalls.FirstCall | HAL/src/alt_alarm_start.c:64-98 | an alarm started in any reachable state for n ticks is not called in the next n ticks and is called in the one after them |
| AlarmCalls.TickReportsCalls | HAL/src/alt_tick.c:98-121 | a tick reports just the alarms that were due, one for each call added to a history |
| AlarmCalls.StopTakesOne | HAL/src/alt_tick.c:66-74 | a stop takes just that alarm off, and the others keep their order |
| AlarmCalls.GoneForGood | HAL/src/alt_tick.c:66-74 | no later tick, start or stop calls or changes an alarm that is gone |
| AlarmRuns.NextOnTime | HAL/src/alt_tick.c:94-123 | every tick, registration and stop keeps each alarm's time ahead of the tick counter and on its schedule |
| AlarmRuns.TickKeepsOrDrops | HAL/src/alt_tick.c:98-121 | each alarm present at the start of a tick is dealt with once: it stays or leaves |
| AlarmRuns.FirePunctual | HAL/src/alt_tick.c:106-118 | a call is made at the due time and the next due time carries no delay over |
| Alarms.AlarmList.Tick | HAL/src/alt_tick.c:82-127 | the walk of the linked list equals the value-level tick although nodes unlink themselves under way; the list stays a ring, callbacks run in order, removed nodes end up alone |
| Alarms.RunFromStart | HAL/src/alt_tick.c:82-127 | the linked list through any sequence of ticks, starts and stops holds what the run of the values reaches, removed alarms included, and no alarm on it has missed a due time or was called with a reply that stops it |
| Alarms.AlarmList.Act | HAL/src/alt_tick.c:66-127 | one tick, start or stop of the linked list is one step of that run |
| Alarms.AlarmList.Visit | HAL/src/alt_tick.c:98-121 | one alarm's turn, with a callback that may stop its own alarm; stopping twice does no harm |
| Alarms.AlarmList.Start | HAL/src/alt_alarm_start.c:64-98 | an alarm goes first on the list with its due time; no clock and no alarm give the two errors and change nothing |
| Alarms.AlarmList.Stop | HAL/src/alt_tick.c:66-74 | a stopped alarm is off the list, the others keep their order; stopping one that is off it changes nothing |
| Alarms.AlarmList.Insert | HAL/inc/sys/alt_llist.h:90-98 | insertion at the front keeps the ring |
| Alarms.AlarmList.Remove | HAL/inc/sys/alt_llist.h:105-117 | removal keeps the ring and leaves the node linked to itself; once more it does nothing |
| FdPool.OpenOutcome | HAL/src/alt_open.c:105-171 | open succeeds if and only if the name is found, a descriptor is free, no descriptor holds the device exclusively and the driver agrees; which error comes first otherwise; a failed open changes no descriptor, a successful one takes the lowest free one and no other |
| FdPool.ExclusiveHeld | HAL/src/alt_open.c:64-92 | through every run in which a device is held exclusively the number of descriptors on it never grows and an open of it fails |
| FdPool.NextKeeps | HAL/src/alt_release_fd.c:44-51 | every call keeps the invariant: descriptors 0 to 2 allocated, free ones blank, device descriptors below the high water mark, only devices held |
| FdPool.RunKeeps | HAL/src/alt_get_fd.c:77-89 | and so does every run |
| FdPool.HeldAnywhere | HAL/src/alt_open.c:78-87 | searching up to the high water mark finds a holder if and only if there is one anywhere |
| FdPool.LockGrant | HAL/src/alt_fd_lock.c:61-69 | a lock is granted if and only if no other descriptor below the high water mark has the device; a granted lock means sole ownership if and only if the descriptor at the mark is the owner's or has another device |
| FdPool.LockMissesTheLast | HAL/src/alt_fd_lock.c:61-69 | two opens of a device, and the lower descriptor is granted exclusive access |
| FdPool.HolderKeepsOut | HAL/src/alt_ioctl.c:106-168 | from grant to release, through every run of other calls, ioctl requests that go to the driver among them: the holder keeps its lock and its device, the number of descriptors on the device never grows and every open of it fails |
| FdPool.LocksOnlyOnRequest | HAL/src/alt_ioctl.c:106-168 | a descriptor that holds a lock after a run held it before, or asked for it in the run and was granted it |
| FdPool.UnlockReleases | HAL/src/alt_fd_unlock.c:52-56 | giving up the only lock on a device lets it be opened again |
| FdPool.CloseKeepsStandardLocks | HAL/src/alt_release_fd.c:44-51 | closing one of the first three descriptors keeps its lock |
| FdPool.StandardLockOutlivesClose | HAL/src/alt_release_fd.c:44-51 | from start-up: standard output redirected to a device, locked and closed, and the device can no longer be opened |
| FdPool.CloseLeavesLockIff | HAL/src/alt_release_fd.c:44-51 | after the close of a descriptor with a lock its device is still locked if and only if the descriptor is one of the first three or another one has a lock on it |
| FdPool.CloseGivesUpLock | HAL/src/alt_close.c:64-101 | closing any other gives up its lock, and the device can be opened again |
| FdCalls.CloseOutcome | HAL/src/alt_close.c:64-101 | close blanks just its descriptor, unless that is one of the first three, whatever the driver returns; the result and the error number say whether the descriptor was negative or the driver failed |
| FdCalls.CloseMakesRoom | HAL/src/alt_release_fd.c:44-51 | over every run: after a close of a descriptor above 2 an open of anything that is not locked succeeds, with that descriptor or a lower one |
| FdCalls.CloseUndoesOpen | HAL/src/alt_close.c:64-101 | closing what was opened leaves every descriptor as it was |
| FdCalls.RedirectOutcome | HAL/src/alt_io_redirect.c:78-92 | a redirection that can open its target sets up the standard descriptor and takes no other; one that cannot changes no descriptor |
| FdCalls.ControlOutcome | HAL/src/alt_ioctl.c:106-168 | a request for the driver changes no descriptor and returns what the driver does; giving up a lock changes that descriptor alone; every error is in the error number |
| FdCalls.MarkRises | HAL/src/alt_get_fd.c:77-89 | the high water mark never falls, and is raised only to the descriptor an open takes |
| FdTable.Table.Open | HAL/src/alt_open.c:105-171 | the routine over the array, with its clean-up, does what the pool's open does |
| FdTable.Table.GetFd | HAL/src/alt_get_fd.c:54-101 | the search claims the lowest free descriptor and raises the high water mark, or reports a full table and changes nothing |
| FdTable.Table.FileLocked | HAL/src/alt_open.c:64-92 | the descriptor is marked, and the loop reports exactly whether another one up to the mark holds the device |
| FdTable.Table.FdLock | HAL/src/alt_fd_lock.c:54-75 | the loop and the grant over the array |
| FdTable.Table.FdUnlock | HAL/src/alt_fd_unlock.c:52-56 | unlocking always succeeds |
| FdTable.Table.ReleaseFd | HAL/src/alt_release_fd.c:44-51 | only descriptors above 2 are freed, a negative one is ignored |
| FdTable.Table.Close | HAL/src/alt_close.c:64-101 | close over the array, with the error cases |
| FdTable.Table.Ioctl | HAL/src/alt_ioctl.c:106-168 | ioctl over the array: the two exclusive-access requests of device descriptors never reach the driver |
| FdTable.Table.OpenFd | HAL/src/alt_io_redirect.c:78-92 | redirection copies the opened descriptor and frees it, or changes nothing |
| Printing.LayoutReadsBack | HAL/src/alt_log_printf.c:206-297 | for every 32-bit argument, base, width and padding, what is printed reads back as the number |
| Printing.LayoutLength | HAL/src/alt_log_printf.c:257-279 | the length is the larger of the width and of digits plus sign |
| Printing.LayoutShape | HAL/src/alt_log_printf.c:257-297 | blanks come before the sign and zeros after it, then digits, in the case asked for, and nothing else |
| Printing.SignedIs | HAL/src/alt_log_printf.c:206-246 | a signed argument is read as two's complement, any other as it is |
| Printing.Examples | HAL/src/alt_log_printf.c:206-297 | the three bases and both cases, on numbers |
| Printing.DigitsDenote | HAL/src/alt_log_printf.c:281-297 | the digits denote the magnitude, are below the base and have no leading zero |
| Printing.DigitsUnique | HAL/src/alt_log_printf.c:281-297 | no other digits do |
| Printing.CountDigits | HAL/src/alt_log_printf.c:247-256 | the loop counts the digits and finds the largest place value; its 32-bit product never wraps |
| Printing.EmitDigits | HAL/src/alt_log_printf.c:281-297 | dividing by falling place values emits exactly the digits |
| Printing.PrintInteger | HAL/src/alt_log_printf.c:206-297 | the whole conversion: two's-complement sign, padding before the sign when blank and after it when zero, digits |
| Printing.RepChar | HAL/src/alt_log_printf.c:106-110 | a character as often as asked, not at all for a count below one |
| Printing.PrintHex | HAL/src/alt_printf.c:84-113 | shifting prints the same digits |
| Printing.HexPrintersAgree | HAL/src/alt_printf.c:84-113 | both printers print the same for every 32-bit number |
| Printing.NibbleIsDigit | HAL/src/alt_printf.c:100-107 | the four bits at each shift are a digit, and the first that are not zero are the first digit |
| TimeOfDay.ShowsTheTime | HAL/src/alt_gettod.c:89-112 | when the tick rate divides a million, a clock set to t at one tick shows at every later tick the normal form of t plus the ticks since, and the clamp to zero never acts |
| TimeOfDay.SetThenGet | HAL/src/alt_settod.c:80-89 | reading at once gives back the time set, for a time in normal form and a rate that divides a million |
| TimeOfDay.NormalisedIs | HAL/src/alt_gettod.c:95-112 | a time brought into range is the same time, or zero exactly when it is negative with negative microseconds |
| TimeOfDay.ExactIffDivides | HAL/src/alt_gettod.c:91-93 | the clock is exact at every tick if and only if the tick rate divides a million |
| TimeOfDay.MonotoneIff | HAL/src/alt_gettod.c:91-93 | the clock never goes back from one tick to the next if and only if the tick rate divides a million or is above it |
| TimeOfDay.NeverBackIff | HAL/src/alt_gettod.c:89-112 | the same for a clock set to any time at any tick, from then on |
| TimeOfDay.Falls | HAL/src/alt_gettod.c:91-93 | at every other rate the tick at which it goes back, and by how much: a second less one step |
| TimeOfDay.SixtyRunsBackwards | HAL/src/alt_gettod.c:91-93 | at 60 ticks a second, an input: the clock shows less at tick 61 than at tick 60 |
| TimeOfDay.ElapsedExact | HAL/src/alt_gettod.c:91-93 | the two quotients add up to the ticks at their length |
| TimeOfDay.WallClock.GetTimeOfDay | HAL/src/alt_gettod.c:71-124 | the two loops bring the sum into normal form, or clamp to zero exactly when the time is negative with negative microseconds; without a clock the error, and nothing is written |
| TimeOfDay.WallClock.SetTimeOfDay | HAL/src/alt_settod.c:72-96 | the stored reset time is the time set less the time elapsed; without a clock the error, and nothing is stored |

## Left out

UART
- The thread side of the fast driver is a step function and not a method: it may be interrupted at each access.
- The `__rtos__` branches wait on flags of an operating system that is not visible, the semaphores appear only as "one
  writer, one reader", and the ring reset under `IGNORE_FIFO_FULL_ERROR` drops data on purpose.
- A close concurrent with a write: the semaphore does not cover it, the model takes close as a call of the writing thread.
- The model has at most one read in progress. The code posts the semaphore of the reader before it turns RE on again
  (`altera_avalon_jtag_uart_read.c:182-191`), so a second reader may start in between; that window is not modelled.
- Termination of the interrupt routine is stated for a host that does nothing meanwhile; an endlessly sending host can
  keep it busy. `JtagUartCalls` bounds the turns of a call, for a thread that gets its turns.
- The bound on `host_inactive` below INT_MAX - 2 and log output.

Feature lists
- Memory does not change during a scan and allocation succeeds; a `malloc` of no bytes gives a block as well.
- The stack's own buffer is not among the blocks whose ownership is tracked, and a store or read outside its room is
  recorded but has no modelled effect.
- Pointers have 32 bits, as on the processor built for. Debug printing, the report of interfaces, the interrupt number.

HyperRAM
- WRREG and its engine: the module is empty, so its end signal is an arbitrary input and its outputs are idle.
- The address decoder: command, row, page and offset are arbitrary inputs. Agreement between memory and line buffer is
  not stated; see the write miss above.
- Reset in the middle of a run, clock phases and the cells at the pads; `s0_waitrequest` is not driven.
- The address captured for the decoder is kept by `HyperRamBlocks`; what the decoder makes of it is an arbitrary input.
- Counters are unbounded numbers. None reaches its width except `rdreg_stm`'s, whose 15 is in range.

Alarms
- RunFromStart: each start is of a node of its own, on a system with a clock; `Alarms.AlarmList.Start` has the errors.
- Callbacks that stop other alarms or start alarms, wrap-around of the 64-bit counter, the operating system's tick.

Descriptors
- Device and file-system lookup by name: what a name stands for is an argument, and a device is never also a file system.
- Drivers do not touch the table; private data of descriptors; the numbers of the error codes are the C library's.

Printing and time
- Parsing of format strings, text and characters; widths past the range of an int.
- Overflow of ticks times microseconds per tick and of seconds.

Elsewhere
- Boot code, interrupt controllers, CSR and ECC access, stubs of system calls, semihosting, PLL and DDR cells, build and
  configuration files.
