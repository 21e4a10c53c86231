# Verified models of the HAL and its drivers

A Dafny model of the board support package under `software/lab4LcdInterface_bsp`: the interrupt-driven
JTAG UART driver, the alarm scheduler, the DMA driver, the file descriptor pool, the wall clock, the two
small printf implementations and the cache flushes. `dafny verify dfyconfig.toml` checks everything.

**Protocols** come in two layers. A *machine* is a step function over an immutable state, one step per
access to shared memory or to a register, so that a run is any interleaving of main-line code,
interrupts, timer ticks and the outside world; invariants and theorems are about all runs. A *driver
class* has the fields, arrays and loops of the C code; every access its main-line calls make is preceded
by `Preempt` (any number of interrupts and other events) and logged as one machine step, so `Valid()` says
that the object is in a state the machine reaches, and the theorems hold of it.

**The DMA driver** takes no care of interrupts between its loads, so some of its runs go wrong. The machine
and the class have them all. The theorems are about *orderly* runs (`Disciplined` in `DmaMachine`): no access
of a send or prepare spoils a ring, and no ioctl is called when it risks being overtaken. Both conditions are
exact. An access loses an accepted descriptor if and only if it spoils (`SpoilsIff`, `RunsIntactIff`). And what
a caller can see beforehand decides it: a send or prepare may lose a descriptor, and an ioctl may switch on a
busy device, if and only if the call is risky (`PostSafeIff`, `IoctlSafeIff`); calls that are not leave an
orderly run orderly (`PostSlot`, `Control`).

| files | what they hold |
|---|---|
| `Ring` | the ring index arithmetic the UART and the DMA driver share |
| `UartMachine`, `UartProofs`, `UartTheorems`, `UartRoom`, `UartDriver` | JTAG UART: write, read, interrupt routine, timeout alarm, ioctl, close |
| `AlarmTime`, `AlarmList` | deadlines against an unbounded clock; the intrusive list walked by the tick while callbacks edit it |
| `DmaMachine`, `DmaProofs`, `DmaTheorems`, `DmaTransfers`, `DmaDriver` | DMA: send, prepare, the launchers, interrupt routine with callbacks that post, ioctl, space |
| `DmaBreaches`, `DmaOvertaking` | when DMA calls go wrong, exactly |
| `FdTable`, `FdProofs`, `FdCalls`, `FdPool` | descriptor pool: open, close, ioctl, fcntl, redirection, exclusive locks |
| `WallClock` | settimeofday and gettimeofday |
| `Digits`, `Printing`, `Formats`, `PrintfStandard` | numerals, integer printing, the two format loops, the C standard's meaning of them |
| `CacheFlush` | data and instruction cache range flushes |
| `Machine32`, `Arithmetic`, `Options` | 32-bit words; lemmas about quotients; optional values |

Ring length, FIFO depths, number of DMA slots, table length, cache and line sizes are parameters.

Where the code falls short of what its documentation or its callers would expect, the code is modelled,
and exactly when it does is proved:

- `alt_alarm_start` with a delay of 2^32 - 1 fires at once, unless the counter stands at 2^32 - 1 (`StartExact`).
- A callback that leaves the alarm saved as the tick's next one unlinked leaves `alt_tick` no way back to the list's head, until a callback starts that alarm again (`AnyTurn`, `Strand`).
- A callback that starts its own alarm again and returns a period gets the sum of both, exactly within the bound of `RestartExactIff`.
- `alt_fd_lock` promises that no other descriptor is open on the device, but does not look at slot `alt_max_fd` (`GrantSound`, `GrantMissesLastSlot`).
- `settimeofday` promises that a `gettimeofday` at once returns the value set, which fails once its 32-bit product wraps a number of times that is no multiple of 15625 (`RoundTripIff`).
- The clock steps back where the tick counter wraps, where its seconds overflow, and at rates below 10^6 that do not divide it also in between, unless a reading before the epoch is held at zero (`StepsBackIff`, `DropsIff`); every clock that is not before the epoch at count zero does at some tick (`EveryRateStepsBack`).
- The DMA driver's ring snapshot, its descriptors and the guard of its ioctl are open to interrupts as said above; `alt_avalon_dma_space` is exact unless sends complete between its loads (`SpaceExactIff`; likewise `-ENOSPC`, `RefusedIff`), which they may if a transfer that takes one off the ring is in flight (`SpaceSafeIff`).
- The `STREAM_OFF` requests set the bidirectional launcher although the other side may be streaming (`LauncherFitsIff`, `StalledForEver`).
- A zero-length blocking read or write reports `-EIO` (`ZeroLengthCallsFail`).
- The log printer reads precisions and ignores them (`FollowsStandardIff`).
- A cache flush runs for ever if start + len stays below 2^32 but start + len rounded up to lines does not (`LoopEndsIff`); one that ends misses lines if the region reaches exactly to the top of memory and is not an unaligned tail of the last line (`FlushCoversIff`).

## Model

| member | source | states |
|---|---|---|
| UartTheorems.RunsConserveBytes | software/lab4LcdInterface_bsp/drivers/src/altera_avalon_jtag_uart_init.c:117-196 | In every run of calls, interrupt steps and host steps: bytes at the host ++ transmit FIFO ++ transmit ring = bytes accepted by write, and bytes delivered by read ++ receive ring ++ receive FIFO = bytes the host sent; no FIFO overflows |
| UartTheorems.RunsNeverDisturbCopies | software/lab4LcdInterface_bsp/drivers/src/altera_avalon_jtag_uart_write.c:105-126 | While a block is copied under stale index snapshots, none of its slots is queued to be sent (or, when reading, all stay queued), and what was copied so far is intact |
| UartTheorems.StepRefinesQueues | software/lab4LcdInterface_bsp/drivers/src/altera_avalon_jtag_uart_read.c:120-142 | Every step of every run is, seen through the indices, one atomic put or take on a bounded queue, or nothing; `in` never catches `out` |
| UartTheorems.RunsNeverLoseWakeups | software/lab4LcdInterface_bsp/drivers/src/altera_avalon_jtag_uart_init.c:156-194 | Queued output implies WE set or a writer between its tx_in store and its WE enable; RE clear implies a full ring or a reader between its rx_out store and its RE enable |
| UartTheorems.OutputDrains | software/lab4LcdInterface_bsp/drivers/src/altera_avalon_jtag_uart_init.c:169-195 | From every reachable state with no writer about to enable WE, the interrupt and the host alone bring every accepted byte out |
| UartTheorems.DrainStep | software/lab4LcdInterface_bsp/drivers/src/altera_avalon_jtag_uart_init.c:169-195 | Each step of that drain is one the device may take and decreases queue, FIFO and stage lexicographically |
| UartTheorems.EveryScheduleDrains | software/lab4LcdInterface_bsp/drivers/src/altera_avalon_jtag_uart_init.c:117-196 | On every schedule, if the device shows its pending bits: the events of device and host that have any effect come to an end within a bound fixed at the start, and when none is left every accepted byte is out |
| UartTheorems.NothingLeftToDo | software/lab4LcdInterface_bsp/drivers/src/altera_avalon_jtag_uart_init.c:156-194 | A device and a host that can do nothing more hold no byte back (with no writer about to enable WE) |
| UartTheorems.InputDelivers | software/lab4LcdInterface_bsp/drivers/src/altera_avalon_jtag_uart_init.c:125-167 | From every reachable state, whatever call is under way, the interrupt and non-blocking reads alone bring every byte the host sent to the callers, in any ring of more than one slot |
| UartTheorems.DeliverStep | software/lab4LcdInterface_bsp/drivers/src/altera_avalon_jtag_uart_read.c:118-199 | Each step of that delivery is one the device or such a reader may take and decreases bytes, FIFO, reader stage and routine stage lexicographically |
| UartTheorems.OneSlotDeliversNothing | software/lab4LcdInterface_bsp/drivers/src/altera_avalon_jtag_uart_read.c:120-128 | A ring of one slot, which counts as full when empty, delivers nothing in any run |
| UartTheorems.IsrReturns | software/lab4LcdInterface_bsp/drivers/src/altera_avalon_jtag_uart_init.c:117-196 | With the host idle the interrupt routine returns within 8*(RX FIFO + TX ring + RE + WE) + 7 steps, whatever the pending bits do |
| UartTheorems.DeviceStepDecreases | software/lab4LcdInterface_bsp/drivers/src/altera_avalon_jtag_uart_init.c:117-196 | Every step of the routine decreases that measure and keeps what the control snapshot promised |
| UartTheorems.RunsReportHonestly | software/lab4LcdInterface_bsp/drivers/src/altera_avalon_jtag_uart_write.c:146-214 | A finished write accepted exactly the prefix its result counts, and a blocking one is short or fails only after seeing host_inactive nonzero; a finished read delivered exactly its bytes, and a blocking one with room returns -EIO only after seeing host_inactive >= timeout |
| UartTheorems.HostNeverTimesOut | software/lab4LcdInterface_bsp/drivers/src/altera_avalon_jtag_uart_init.c:210-222 | host_inactive stays at most INT_MAX - 2, so with timeout INT_MAX or INT_MAX - 1 no run sees a timeout until a later valid TIOCSTIMEOUT (in the second case) |
| UartTheorems.NoAlarmNoReadError | software/lab4LcdInterface_bsp/drivers/src/altera_avalon_jtag_uart_init.c:89-96 | After a failed alarm start no blocking read with room returns -EIO |
| UartTheorems.ZeroLengthCallsFail | software/lab4LcdInterface_bsp/drivers/src/altera_avalon_jtag_uart_write.c:199-214 | A zero-length blocking write or read returns -EIO although nothing is wrong |
| UartRoom.ShortWritesFoundFull | software/lab4LcdInterface_bsp/drivers/src/altera_avalon_jtag_uart_write.c:103-149 | In every run, a write, blocking or not, returns short or starts to poll only after it found the ring full (one byte less than its length), with exactly as much accepted as now |
| UartRoom.ShortReadsFoundEmpty | software/lab4LcdInterface_bsp/drivers/src/altera_avalon_jtag_uart_read.c:118-158 | In every run, a read returns with space left or starts to poll only after it found the ring empty, with exactly as much delivered as now |
| UartRoom.WriterPolled | software/lab4LcdInterface_bsp/drivers/src/altera_avalon_jtag_uart_write.c:183-188 | A blocking write gives up only after it polled at a time at which the routine had taken a byte since the ring was found full, or the host was timed out |
| UartRoom.SawInactive | software/lab4LcdInterface_bsp/drivers/src/altera_avalon_jtag_uart_write.c:187-188 | sawInactive is set only if the same call read a nonzero host_inactive after polling |
| UartRoom.SawTimeout | software/lab4LcdInterface_bsp/drivers/src/altera_avalon_jtag_uart_read.c:173-178 | sawTimeout is set only if the same call polled while host_inactive was not below the timeout |
| UartRoom.PollResumes | software/lab4LcdInterface_bsp/drivers/src/altera_avalon_jtag_uart_write.c:183-188 | A polling write whose ring has room and whose host is active goes back to copying at once |
| UartRoom.RunKeepsPollInv | software/lab4LcdInterface_bsp/drivers/src/altera_avalon_jtag_uart_write.c:103-114 | In every run the indices a stopped write last loaded are those of a full ring, and tx_in has not moved since |
| UartRoom.WriteAloneTakesAll | software/lab4LcdInterface_bsp/drivers/src/altera_avalon_jtag_uart_write.c:103-214 | A non-blocking write that nothing interrupts appends exactly the first min(length, free slots) bytes of its data to the queue and returns their number, or -EWOULDBLOCK if that is zero |
| UartRoom.WriteAloneReturns | software/lab4LcdInterface_bsp/drivers/src/altera_avalon_jtag_uart_write.c:103-214 | And it returns |
| UartRoom.ReadAloneTakesAll | software/lab4LcdInterface_bsp/drivers/src/altera_avalon_jtag_uart_read.c:118-202 | A non-blocking read that nothing interrupts delivers exactly the first min(space, queued) bytes of the queue, in order, and returns their number, or -EWOULDBLOCK if that is zero |
| UartRoom.ReadAloneReturns | software/lab4LcdInterface_bsp/drivers/src/altera_avalon_jtag_uart_read.c:118-202 | And it returns |
| UartProofs.StepKeepsInv | software/lab4LcdInterface_bsp/drivers/src/altera_avalon_jtag_uart_init.c:117-196 | The whole invariant (conservation, undisturbed copies, wakeups, honest results) is kept by each interleaved step |
| UartProofs.WriterKeepsInv | software/lab4LcdInterface_bsp/drivers/src/altera_avalon_jtag_uart_write.c:103-139 | Each micro-step of write keeps the transmit invariant |
| UartProofs.ReaderKeepsInv | software/lab4LcdInterface_bsp/drivers/src/altera_avalon_jtag_uart_read.c:120-195 | Each micro-step of read keeps the receive invariant |
| UartProofs.RunKeepsInv | software/lab4LcdInterface_bsp/drivers/src/altera_avalon_jtag_uart_init.c:117-196 | Hence so does every run |
| Ring.Publish | software/lab4LcdInterface_bsp/drivers/src/altera_avalon_jtag_uart_write.c:109-126 | The contiguous block the index arithmetic allows is free, and publishing it appends exactly its elements without meeting the consumer |
| Ring.Release | software/lab4LcdInterface_bsp/drivers/src/altera_avalon_jtag_uart_read.c:122-140 | The block a reader measures is a prefix of the queue, and releasing it drops exactly that prefix |
| Ring.RoomGrows | software/lab4LcdInterface_bsp/drivers/src/altera_avalon_jtag_uart_write.c:105-114 | What either side measured stays valid while the other side advances |
| UartDriver.JtagUart.constructor | software/lab4LcdInterface_bsp/drivers/src/altera_avalon_jtag_uart_init.c:66-100 | The state initialisation leaves, with or without its alarm |
| UartDriver.JtagUart.Irq | software/lab4LcdInterface_bsp/drivers/src/altera_avalon_jtag_uart_init.c:117-197 | The routine's own loops over the state structure are a run of the machine and return, with the host acting any finite number of times between any of their accesses; no byte moves in or out of a call |
| UartDriver.JtagUart.IsrRound | software/lab4LcdInterface_bsp/drivers/src/altera_avalon_jtag_uart_init.c:117-196 | One turn of the outer loop: nearer to the return in the measure, unless the host acted |
| UartDriver.JtagUart.ReceiveFrom | software/lab4LcdInterface_bsp/drivers/src/altera_avalon_jtag_uart_init.c:125-167 | The receive half: ring filled, RE cleared only if bytes are left; decreases the measure unless the host acted |
| UartDriver.JtagUart.ReceiveByte | software/lab4LcdInterface_bsp/drivers/src/altera_avalon_jtag_uart_init.c:132-154 | One turn of it: a byte is taken only when the ring has room |
| UartDriver.JtagUart.TransmitTo | software/lab4LcdInterface_bsp/drivers/src/altera_avalon_jtag_uart_init.c:169-195 | The transmit half: FIFO filled, WE cleared only if the ring ran dry; decreases the measure unless the host acted |
| UartDriver.JtagUart.TimeoutAlarm | software/lab4LcdInterface_bsp/drivers/src/altera_avalon_jtag_uart_init.c:203-225 | Device activity zeroes host_inactive; otherwise it counts up to INT_MAX - 2 and stays |
| UartDriver.JtagUart.Write | software/lab4LcdInterface_bsp/drivers/src/altera_avalon_jtag_uart_write.c:83-215 | Accepts exactly the prefix of the data that its result counts, under any interrupts, ticks and host actions; a short one found the ring full during the call, and if blocking saw host_inactive set |
| UartDriver.JtagUart.FillRing | software/lab4LcdInterface_bsp/drivers/src/altera_avalon_jtag_uart_write.c:103-127 | The inner copy loop, as machine steps, ends with no data or no room |
| UartDriver.JtagUart.CopyBlock | software/lab4LcdInterface_bsp/drivers/src/altera_avalon_jtag_uart_write.c:122-126 | The interrupted memcpy and the tx_in store advance the call by exactly n bytes |
| UartDriver.JtagUart.EnableTransmit | software/lab4LcdInterface_bsp/drivers/src/altera_avalon_jtag_uart_write.c:136-149 | Sets WE and returns, or goes on to wait, with the stated result |
| UartDriver.JtagUart.AwaitSpace | software/lab4LcdInterface_bsp/drivers/src/altera_avalon_jtag_uart_write.c:183-184 | The polling loop ends only when tx_out moved or the host timed out |
| UartDriver.JtagUart.SeesInactiveHost | software/lab4LcdInterface_bsp/drivers/src/altera_avalon_jtag_uart_write.c:187-188 | A nonzero host_inactive, and only that, ends the blocking call with what it has |
| UartDriver.JtagUart.Read | software/lab4LcdInterface_bsp/drivers/src/altera_avalon_jtag_uart_read.c:100-203 | Stores exactly the next delivered bytes at the start of the caller's buffer and changes nothing else in it; with space left it found the ring empty during the call; -EIO with room only after a timeout; RE is on after any progress |
| UartDriver.JtagUart.ReadRound | software/lab4LcdInterface_bsp/drivers/src/altera_avalon_jtag_uart_read.c:118-186 | One turn of the outer loop: finish, go round again with nothing stored, or still polling |
| UartDriver.JtagUart.DrainRing | software/lab4LcdInterface_bsp/drivers/src/altera_avalon_jtag_uart_read.c:120-142 | The inner copy loop stores a prefix of the queue; with nothing stored the snapshot is the one polled against |
| UartDriver.JtagUart.TakeBlock | software/lab4LcdInterface_bsp/drivers/src/altera_avalon_jtag_uart_read.c:134-140 | The interrupted memcpy out of the ring and the rx_out store |
| UartDriver.JtagUart.AwaitData | software/lab4LcdInterface_bsp/drivers/src/altera_avalon_jtag_uart_read.c:173-178 | The polling loop ends only when rx_in moved or the host timed out |
| UartDriver.JtagUart.FinishRead | software/lab4LcdInterface_bsp/drivers/src/altera_avalon_jtag_uart_read.c:188-202 | RE enabled if anything was stored, and the result |
| UartDriver.JtagUart.Close | software/lab4LcdInterface_bsp/drivers/src/altera_avalon_jtag_uart_init.c:241-254 | Returns 0 only with the ring drained or the host timed out; -EWOULDBLOCK only when non-blocking, with bytes queued when it looked |
| UartDriver.JtagUart.Ioctl | software/lab4LcdInterface_bsp/drivers/src/altera_avalon_jtag_uart_ioctl.c:52-84 | TIOCSTIMEOUT clamps out-of-range values to INT_MAX - 1; both requests are refused while the timeout is INT_MAX |
| AlarmTime.StartExact | software/lab4LcdInterface_bsp/HAL/src/alt_alarm_start.c:80-96 | An alarm started with delay k fires for the first time after exactly k + 1 ticks, across any wrap, if and only if k <= 2^32 - 2 or the counter stands at 2^32 - 1; otherwise it fires at the next tick |
| AlarmTime.TickExact | software/lab4LcdInterface_bsp/HAL/src/alt_tick.c:109-115 | One tick on an alarm standing for deadline D: due exactly at D, otherwise still standing for D |
| AlarmTime.RearmExact | software/lab4LcdInterface_bsp/HAL/src/alt_tick.c:127-137 | After a callback at its deadline the fields stand for the deadline one period later |
| AlarmTime.RestartExactIff | software/lab4LcdInterface_bsp/HAL/src/alt_alarm_start.c:80-96 | A callback that stops and starts its own alarm and then returns a period: it fires delay + 1 + period ticks later if and only if that sum stays within a turn of the counter, or the start alone crosses into the next turn and the sum does not cross out of it |
| AlarmTime.FiresAfterGap | software/lab4LcdInterface_bsp/HAL/src/alt_tick.c:96-115 | Whatever the fields hold, after exactly how many ticks the alarm fires |
| AlarmTime.FiringsExact | software/lab4LcdInterface_bsp/HAL/src/alt_tick.c:96-138 | For any callback periods and any number of ticks the firings are exactly the planned ones |
| AlarmTime.PlannedAt | software/lab4LcdInterface_bsp/HAL/src/alt_tick.c:127-137 | No drift: firing k is at the first deadline plus the sum of the first k periods |
| AlarmTime.PlannedComplete | software/lab4LcdInterface_bsp/HAL/src/alt_tick.c:119-137 | No planned firing is missing unless the callback returned zero |
| AlarmTime.PlanKept | software/lab4LcdInterface_bsp/HAL/src/alt_tick.c:96-138 | A tick of an alarm that nothing starts or stops keeps it on its plan: fired exactly at the planned ticks, answered each time, linked until a return of zero |
| AlarmList.AlarmSystem.Tick | software/lab4LcdInterface_bsp/HAL/src/alt_tick.c:87-148 | For all callbacks that do not stop the saved successor: returns; visits every alarm that was listed and is not stopped before its turn exactly once, and no other; makes each callback exactly at the unbounded deadline; an alarm that no callback starts or stops is taken off after a return of zero, and after any other stays linked, exact, with its deadline moved by just that return; keeps the doubly linked circle |
| AlarmList.AlarmSystem.TimerRun | software/lab4LcdInterface_bsp/HAL/src/alt_tick.c:87-148 | Over any number of ticks, with any starts and stops between them: an alarm with an exact deadline that nothing starts or stops has fired exactly at the ticks planned from that deadline and what its callback returned, and is linked exactly until a return of zero |
| AlarmList.AlarmSystem.Visit | software/lab4LcdInterface_bsp/HAL/src/alt_tick.c:100-141 | One turn of its loop, with the saved successor still listed afterwards, the alarm's record changed as the callback's return says, and the records of all alarms not started or stopped unchanged |
| AlarmList.AlarmSystem.Expire | software/lab4LcdInterface_bsp/HAL/src/alt_tick.c:117-138 | The callback, then removal on a zero return, or a deadline later by exactly the return (from the new deadline if the callback started the alarm again), leaving all alarms not started or stopped as they were |
| AlarmList.AlarmSystem.Callback | software/lab4LcdInterface_bsp/HAL/src/alt_tick.c:117-117 | Any sequence of starts of unlinked alarms and stops of started ones, its own alarm and the saved successor included, keeps the list and all deadlines; a tame one also keeps the saved successor in its place |
| AlarmList.AlarmSystem.NextDeadline | software/lab4LcdInterface_bsp/HAL/src/alt_tick.c:127-137 | The period is added to the deadline, or to the new one of an alarm its callback started again, exact under the condition of RestartExactIff |
| AlarmList.AlarmSystem.AlarmStart | software/lab4LcdInterface_bsp/HAL/src/alt_alarm_start.c:64-112 | Links an unlinked alarm first (its own callback may do so) with the deadline now + delay + 1, exact iff the delay is expressible; no clock and a null alarm are refused |
| AlarmList.AlarmSystem.AlarmStop | software/lab4LcdInterface_bsp/HAL/src/alt_tick.c:66-73 | Takes exactly this alarm off the list, also during a tick and also if it is the saved successor; stopping twice is harmless |
| AlarmList.AlarmSystem.SysclkInit | software/lab4LcdInterface_bsp/HAL/inc/sys/alt_alarm.h:93-104 | The rate can be set once |
| AlarmList.AlarmSystem.AnyTurn | software/lab4LcdInterface_bsp/HAL/src/alt_tick.c:100-141 | A turn of the loop wherever it can stand (at the next alarm to be visited, at one visited before, or at an unlinked one), with any callback: after the turn, the stop that a zero return asks for included, there is a way along the links to the head if and only if the saved successor is linked then, or is the head |
| AlarmList.AlarmSystem.Strand | software/lab4LcdInterface_bsp/HAL/src/alt_tick.c:100-141 | A loop that stands at an unlinked alarm stays there for any number of turns, with no way to the head, until a callback starts that alarm |
| AlarmList.AlarmSystem.LeadsIffLinked | software/lab4LcdInterface_bsp/HAL/src/alt_tick.c:100-102 | From a started alarm the links lead to the head if and only if it is linked |
| AlarmList.LinkedList.Insert | software/lab4LcdInterface_bsp/HAL/inc/sys/alt_llist.h:90-98 | The entry becomes the first of the circle, the order of the others unchanged, in both directions |
| AlarmList.LinkedList.Remove | software/lab4LcdInterface_bsp/HAL/inc/sys/alt_llist.h:105-117 | The circle without the entry, in order and in both directions, and the entry linked to itself |
| DmaTheorems.RunsNeverLoseLaunches | software/lab4LcdInterface_bsp/drivers/src/altera_avalon_dma.c:44-116 | At every quiescent point of every orderly run: active iff the launcher would find work iff a transfer is in flight (in bidirectional mode: iff both rings are non-empty), programmed from the two heads; no transfer is ever started over another |
| DmaTheorems.RunsPairInOrder | software/lab4LcdInterface_bsp/drivers/src/altera_avalon_dma.c:464-512 | In orderly runs in which no STREAM_ON is accepted as many sends as prepares are completed, one pair for each transfer that has ended, and each completed descriptor's callback ran once, in order, with its own handle and data, whatever callbacks posted |
| DmaTransfers.RunsServePairs | software/lab4LcdInterface_bsp/drivers/src/altera_avalon_dma.c:44-66 | In such runs the k-th transfer reads from the k-th accepted send and writes to the k-th accepted prepare, and its length is the largest that fits both |
| DmaTransfers.RunsProgramHeads | software/lab4LcdInterface_bsp/drivers/src/altera_avalon_dma.c:44-116 | In every orderly run, streaming or not, the registers of a transfer in flight serve the oldest descriptors not completed: both sides, at the largest length that fits them; or one side's address and length, with the address given to the other side's last STREAM_ON |
| DmaTransfers.RunsCallBack | software/lab4LcdInterface_bsp/drivers/src/altera_avalon_dma.c:464-512 | In every orderly run, streaming or not, the callbacks made for a side are those of its completed descriptors that ask for one, in the order of acceptance, each with its own handle and data, whatever callbacks post |
| DmaTransfers.StepCompletes | software/lab4LcdInterface_bsp/drivers/src/altera_avalon_dma.c:464-481 | An interrupt completes one descriptor of each side that does not stream, and nothing else completes any |
| DmaTransfers.RefusedIff | software/lab4LcdInterface_bsp/drivers/src/altera_avalon_dma.c:414-422 | A send or prepare finds no room if and only if its ring held, but for the completions since its first load, one descriptor less than its slots (modulo the slots); so without any it does exactly if the ring is full |
| DmaTransfers.PostNowAccepts | software/lab4LcdInterface_bsp/drivers/src/altera_avalon_dma.c:405-431 | A callback's post is accepted if and only if it is aligned, not too long and the ring not full, and then appended |
| DmaTheorems.ServePairs | software/lab4LcdInterface_bsp/drivers/src/altera_avalon_dma.c:448-513 | One interrupt, both callbacks and all their posts keep pairing and log: the popped descriptor is not overwritten before it is read |
| DmaTheorems.PostNowPairs | software/lab4LcdInterface_bsp/drivers/src/altera_avalon_dma.c:417-431 | A post from a callback fills a slot other than the one just completed, thanks to the one-slot gap of the full test |
| DmaTheorems.RunsKeepModeSafe | software/lab4LcdInterface_bsp/drivers/src/altera_avalon_dma.c:140-205 | In orderly runs every queued descriptor is aligned to the current width and at most max_length; the streams are never both on; the control register shows the mode |
| DmaTheorems.RunsCountSpace | software/lab4LcdInterface_bsp/drivers/src/altera_avalon_dma.c:367-368 | In orderly runs the transmit indices always tell the number of sends not completed |
| DmaTheorems.SpaceExactIff | software/lab4LcdInterface_bsp/drivers/src/altera_avalon_dma.c:364-368 | The answer of space() is the room at its second load if and only if the number of sends completed between its two loads is a multiple of NSLOTS |
| DmaTheorems.SpaceSafeIff | software/lab4LcdInterface_bsp/drivers/src/altera_avalon_dma.c:364-368 | It is that whatever interrupts come, if and only if at the call no transfer is in flight or the transmit side streams |
| DmaTheorems.IoctlAlone | software/lab4LcdInterface_bsp/drivers/src/altera_avalon_dma.c:140-205 | An ioctl that nothing interrupts is refused exactly while a ring is not empty or the length register not zero, and otherwise switches |
| DmaTransfers.IoctlMeans | software/lab4LcdInterface_bsp/drivers/src/altera_avalon_dma.c:147-262 | On a quiescent device: exactly which requests are granted, the refusal codes, and the flags, width, launcher, address registers and control register after each; a refusal changes nothing |
| DmaTheorems.IoctlKeepsLauncher | software/lab4LcdInterface_bsp/drivers/src/altera_avalon_dma.c:140-182 | It keeps the launcher matching the flags if and only if a ring is not empty, the length register is not zero, or it is no STREAM_OFF while the other side streams |
| DmaTheorems.LauncherFitsIff | software/lab4LcdInterface_bsp/drivers/src/altera_avalon_dma.c:149-182 | The launcher matches the flags in every state of an orderly run if and only if no STREAM_OFF is accepted in it while the other side streams |
| DmaTheorems.FittingLaunches | software/lab4LcdInterface_bsp/drivers/src/altera_avalon_dma.c:75-116 | Wherever it matches, a streaming side's partner is launched as soon as it has work |
| DmaTheorems.StreamOffStallsPrepare | software/lab4LcdInterface_bsp/drivers/src/altera_avalon_dma.c:179-182 | TX_STREAM_ON, RX_STREAM_OFF and an accepted prepare end with the prepare queued and the engine idle |
| DmaTheorems.StalledForEver | software/lab4LcdInterface_bsp/drivers/src/altera_avalon_dma.c:44-66 | From there the prepare is never served and the engine never runs, in any continuation without a send |
| DmaBreaches.PostSafeIff | software/lab4LcdInterface_bsp/drivers/src/altera_avalon_dma.c:414-431 | Whatever interrupts come during a send or prepare and whatever their callbacks post, its ring loses no accepted descriptor, if and only if it is not the case at the call that a transfer is in flight, it or one that follows it ends in a callback, and the ring is not both full and on a streaming side (so that it stays full) |
| DmaBreaches.SpoilsIff | software/lab4LcdInterface_bsp/drivers/src/altera_avalon_dma.c:417-431 | An access of a call that has chosen its slot leaves its ring holding what was accepted if and only if it does not spoil: it changes no field of a queued descriptor, and publishes only the next one of its ring, with room for it, and intact |
| DmaBreaches.RunsIntactIff | software/lab4LcdInterface_bsp/drivers/src/altera_avalon_dma.c:294-513 | A run without risky ioctls loses no accepted descriptor at any time if and only if it is orderly, however interrupts and callbacks fall |
| DmaBreaches.LoseDescriptor | software/lab4LcdInterface_bsp/drivers/src/altera_avalon_dma.c:414-431 | From every call that risks it, the run that loses a descriptor |
| DmaBreaches.CallbackTears | software/lab4LcdInterface_bsp/drivers/src/altera_avalon_dma.c:414-415 | A post from the callback of the transfer in flight, between the two loads, on a full ring, leaves the first load stale |
| DmaBreaches.TornLoses | software/lab4LcdInterface_bsp/drivers/src/altera_avalon_dma.c:414-431 | A stale first load and a full ring: the full test passes, and if nothing interrupts the rest of the call the ring then looks empty |
| DmaBreaches.ReentryLoses | software/lab4LcdInterface_bsp/drivers/src/altera_avalon_dma.c:417-431 | A callback posts on the ring of a call that has chosen its slot: if nothing interrupts the rest of the call, one of the two descriptors is lost |
| DmaOvertaking.IoctlSafeIff | software/lab4LcdInterface_bsp/drivers/src/altera_avalon_dma.c:140-145 | Whatever interrupts come between its five guard loads, an ioctl switches only with both rings empty and no transfer in flight, if and only if it is not the case at the call that a transfer is in flight, both rings can drain, and a callback is due on the way |
| DmaOvertaking.Overtake | software/lab4LcdInterface_bsp/drivers/src/altera_avalon_dma.c:140-145 | From every such state the run in which the guard passes with a misfit descriptor queued |
| DmaOvertaking.OvertakenWidthMisaligns | software/lab4LcdInterface_bsp/drivers/src/altera_avalon_dma.c:183-202 | Whereupon a larger width is set although a queued descriptor is not aligned to it |
| DmaProofs.StepKeepsInv | software/lab4LcdInterface_bsp/drivers/src/altera_avalon_dma.c:294-513 | Each access of send, prepare, ioctl and space and each interrupt the discipline allows keeps the queue, mode, engine and call invariants |
| DmaProofs.ServeKeepsCore | software/lab4LcdInterface_bsp/drivers/src/altera_avalon_dma.c:448-513 | Every interrupt, whatever its callbacks post, keeps the queue, mode and engine invariants |
| DmaProofs.RunKeepsInv | software/lab4LcdInterface_bsp/drivers/src/altera_avalon_dma.c:294-513 | Hence so does every disciplined run |
| DmaDriver.DmaDevice.PostSlot | software/lab4LcdInterface_bsp/drivers/src/altera_avalon_dma.c:385-439 | send (and prepare, lines 294-346): -EINVAL iff misaligned or too long, -ENOSPC on an idle engine iff the ring is full, success only with the descriptor published, under any interrupts; called in an orderly run when it risks nothing it leaves the run orderly; after an orderly run nothing accepted is lost and the engine runs iff there is work |
| DmaDriver.DmaDevice.Enqueue | software/lab4LcdInterface_bsp/drivers/src/altera_avalon_dma.c:414-431 | Both loads of the snapshot, the four stores of the descriptor and the end store, interrupted anywhere |
| DmaDriver.DmaDevice.LaunchFromPost | software/lab4LcdInterface_bsp/drivers/src/altera_avalon_dma.c:433-436 | The launch called from main-line code, interrupted between its statements |
| DmaDriver.DmaDevice.LaunchAtOnce | software/lab4LcdInterface_bsp/drivers/src/altera_avalon_dma.c:44-116 | The three launch routines are the machine's launch |
| DmaDriver.DmaDevice.Irq | software/lab4LcdInterface_bsp/drivers/src/altera_avalon_dma.c:448-513 | The interrupt routine with any callback posts is the machine's |
| DmaDriver.DmaDevice.SpaceLeft | software/lab4LcdInterface_bsp/drivers/src/altera_avalon_dma.c:355-369 | Interrupted between its loads, the answer is exact if and only if the sends completed meanwhile are a multiple of NSLOTS in number; none are if at the call no transfer is in flight or the transmit side streams |
| DmaDriver.DmaDevice.Control | software/lab4LcdInterface_bsp/drivers/src/altera_avalon_dma.c:124-262 | Interrupted between its guard loads: refused with the mode unchanged, or the stated mode, launcher and control register, in an orderly run on a quiescent device only; called in an orderly run when not risky it leaves the run orderly; with no transfer in flight the guard is exact |
| DmaDriver.DmaDevice.constructor | software/lab4LcdInterface_bsp/drivers/src/altera_avalon_dma.c:520-557 | The initial state: empty rings, 32-bit, memory to memory |
| FdProofs.ReachedInv | software/lab4LcdInterface_bsp/HAL/src/alt_dev.c:118-149 | From the initial table every run keeps slots 0..2 open, every other open slot within the high-water mark, and the two reserved flags consistent |
| FdProofs.ApplyKeepsInv | software/lab4LcdInterface_bsp/HAL/src/alt_open.c:105-171 | Each system call keeps that invariant |
| FdProofs.OpenTakesLeastFree | software/lab4LcdInterface_bsp/HAL/src/alt_get_fd.c:77-89 | A successful open takes the least free slot and touches no other; a failed one leaves every slot's device as it was |
| FdProofs.OpenSucceedsIff | software/lab4LcdInterface_bsp/HAL/src/alt_open.c:72-91 | An open of a device succeeds iff a slot is free, the device agrees and no descriptor holds it exclusively: the scan misses none |
| FdProofs.GrantSound | software/lab4LcdInterface_bsp/HAL/src/alt_fd_lock.c:61-69 | TIOCEXCL is granted to every sole descriptor; when granted, the holder is sole if and only if the slot at alt_max_fd is not another descriptor on the device |
| FdProofs.GrantMissesLastSlot | software/lab4LcdInterface_bsp/HAL/src/alt_fd_lock.c:61-61 | Two opens of one device and TIOCEXCL on the first: granted |
| FdProofs.LockStable | software/lab4LcdInterface_bsp/HAL/src/alt_ioctl.c:127-139 | Through every run that does not unlock, close or redirect the holder, it stays the only descriptor on its device, and every open of the device fails |
| FdCalls.RedirectMeans | software/lab4LcdInterface_bsp/HAL/src/alt_io_redirect.c:58-72 | If a slot is free, the device willing and not locked, the standard descriptor becomes what open makes of the first free slot (device, flags, private data), that slot is free again and all others are unchanged; otherwise the target and every device are unchanged |
| FdCalls.OpenedSlot | software/lab4LcdInterface_bsp/HAL/src/alt_open.c:132-166 | A successful open leaves in the first free slot the device, the caller's flags without the two reserved bits, the device bit for a device, and no lock |
| FdCalls.OpenFails | software/lab4LcdInterface_bsp/HAL/src/alt_open.c:119-166 | Which error a failed open reports, and that only the first free slot may have changed, which is free again with no flags |
| FdCalls.CloseMeans | software/lab4LcdInterface_bsp/HAL/src/alt_close.c:66-101 | Exactly the slot is freed and its flags cleared, unless it is a standard descriptor; with the device's error or 0, and EBADFD for a negative descriptor |
| FdCalls.LockMeans | software/lab4LcdInterface_bsp/HAL/src/alt_fd_lock.c:54-75 | A granted lock sets bit 31 of its descriptor's flags, a refused one nothing |
| FdCalls.UnlockMeans | software/lab4LcdInterface_bsp/HAL/src/alt_fd_unlock.c:52-56 | An unlock clears exactly that bit and succeeds |
| FdCalls.UnlockAdmits | software/lab4LcdInterface_bsp/HAL/src/alt_fd_unlock.c:52-56 | After the unlock of an exclusive holder an open of its device that failed before succeeds |
| FdCalls.OtherRequests | software/lab4LcdInterface_bsp/HAL/src/alt_ioctl.c:141-160 | Every other request goes to the device, and changes no descriptor |
| FdCalls.FcntlMeans | software/lab4LcdInterface_bsp/HAL/src/alt_fcntl.c:78-95 | F_SETFL sets O_APPEND and O_NONBLOCK as asked and keeps every other bit; F_GETFL returns all but the two reserved bits |
| FdPool.Pool.GetFd | software/lab4LcdInterface_bsp/HAL/src/alt_get_fd.c:54-101 | The scan allocates the least free slot and raises the mark |
| FdPool.Pool.FileLocked | software/lab4LcdInterface_bsp/HAL/src/alt_open.c:64-92 | The unsigned scan stays in bounds after an allocation, and reports exactly whether another descriptor up to the mark holds the device |
| FdPool.Pool.Open | software/lab4LcdInterface_bsp/HAL/src/alt_open.c:105-171 | Allocation, flags, lock check, device open, and rollback of each failure |
| FdPool.Pool.Configure | software/lab4LcdInterface_bsp/HAL/src/alt_open.c:132-160 | The part that can fail, with its three outcomes |
| FdPool.Pool.FdLock | software/lab4LcdInterface_bsp/HAL/src/alt_fd_lock.c:54-75 | The scan below the mark, then the EXCL bit |
| FdPool.Pool.FdUnlock | software/lab4LcdInterface_bsp/HAL/src/alt_fd_unlock.c:52-56 | Clears exactly the EXCL bit |
| FdPool.Pool.ReleaseFd | software/lab4LcdInterface_bsp/HAL/src/alt_release_fd.c:44-51 | Frees a slot above 2, and only such a slot |
| FdPool.Pool.Ioctl | software/lab4LcdInterface_bsp/HAL/src/alt_ioctl.c:106-168 | Lock requests of device descriptors are handled here, all else by the device |
| FdPool.Pool.Close | software/lab4LcdInterface_bsp/HAL/src/alt_close.c:64-101 | Frees the slot whatever the device says, and reports its error |
| FdPool.Pool.Fcntl | software/lab4LcdInterface_bsp/HAL/src/alt_fcntl.c:66-101 | F_SETFL changes only the two flags under its mask; F_GETFL hides the reserved bits |
| FdPool.Pool.Redirect | software/lab4LcdInterface_bsp/HAL/src/alt_io_redirect.c:58-72 | Opens, copies the descriptor over the standard one, frees the new slot |
| FdPool.Pool.PerformAll | software/lab4LcdInterface_bsp/HAL/src/alt_open.c:105-171 | Any calls in any order leave the array as the run of the table functions says |
| FdPool.Pool.constructor | software/lab4LcdInterface_bsp/HAL/src/alt_dev.c:118-149 | Three standard descriptors, all others free, mark -1 |
| WallClock.RoundTripIff | software/lab4LcdInterface_bsp/HAL/src/alt_settod.c:82-84 | gettimeofday right after settimeofday(t) returns t, for every normalised t and nonzero rate, if and only if the 32-bit product wrapped a multiple of 15625 times (zero included), or t is zero and the clamp hides a backward difference |
| WallClock.RawAfterSet | software/lab4LcdInterface_bsp/HAL/src/alt_gettod.c:91-93 | Beyond that bound the difference before normalising is exactly that of the two residues |
| WallClock.ResiduesAgreeIff | software/lab4LcdInterface_bsp/HAL/src/alt_settod.c:83-84 | The 32-bit and 64-bit residues agree exactly in those cases |
| WallClock.ClockExact | software/lab4LcdInterface_bsp/HAL/src/alt_gettod.c:89-112 | At rates dividing 10^6, k ticks after a set the time read is normalised and is the set time plus k*10^6/rate microseconds |
| WallClock.StepsBackIff | software/lab4LcdInterface_bsp/HAL/src/alt_gettod.c:91-118 | For every tick of unbounded time, every rate and every time the clock was set to: a tick takes the time back if and only if the clock drops (`Drops`), where the clamp does not hold a reading at zero; if it holds the new one, if and only if the old was positive; if only the old one, if and only if the new is negative |
| WallClock.DropsIff | software/lab4LcdInterface_bsp/HAL/src/alt_gettod.c:91-93 | Without the clamp the reading falls if and only if the counter wraps and the seconds have not left their signed field since it last did, or the seconds leave it now, or the microseconds wrap while the seconds stay |
| WallClock.SetIsSettled | software/lab4LcdInterface_bsp/HAL/src/alt_settod.c:82-84 | settimeofday leaves such a stored time for every normalised one it is given |
| WallClock.StepsBackWithinTurnIff | software/lab4LcdInterface_bsp/HAL/src/alt_gettod.c:91-93 | A clock not before the epoch at count zero steps back before the counter wraps if and only if its seconds leave their signed field on the way, or the rate is at most 10^6 and does not divide it |
| WallClock.EveryRateStepsBack | software/lab4LcdInterface_bsp/HAL/src/alt_gettod.c:91-93 | Such a clock steps back at some tick, at every rate |
| WallClock.CarryFitsIff | software/lab4LcdInterface_bsp/HAL/src/alt_gettod.c:109-112 | The carrying loop stays within the signed seconds field if and only if the sum it arrives at does |
| WallClock.Clock.SetTimeOfDay | software/lab4LcdInterface_bsp/HAL/src/alt_settod.c:72-96 | Stores the offset in 32-bit fields and the zone; refused without a clock |
| WallClock.Clock.GetTimeOfDay | software/lab4LcdInterface_bsp/HAL/src/alt_gettod.c:71-124 | Both normalising loops end, at the normalised pair with the same total, or zero when the total is negative; the zone is stored only where asked for |
| Printing.PrintingInvertible | software/lab4LcdInterface_bsp/HAL/src/alt_log_printf.c:238-297 | For every 32-bit value (0x80000000 included), base, width, sign and zero flag the output reads back as the value |
| Printing.PrintingSized | software/lab4LcdInterface_bsp/HAL/src/alt_log_printf.c:258-279 | The length is the larger of the width and digits plus sign; no redundant leading digit |
| Printing.Port.PutInteger | software/lab4LcdInterface_bsp/HAL/src/alt_log_printf.c:238-297 | Sign, padding and digit loops print exactly that string |
| Printing.Port.LargestPlace | software/lab4LcdInterface_bsp/HAL/src/alt_log_printf.c:247-255 | The largest place value is the power of the base at the number's leading digit; the 32-bit product never wraps |
| Printing.Port.PutDigits | software/lab4LcdInterface_bsp/HAL/src/alt_log_printf.c:281-297 | Printing from the top place value down |
| Printing.Port.StripSign | software/lab4LcdInterface_bsp/HAL/src/alt_log_printf.c:238-245 | The complement gives the magnitude, for 0x80000000 too |
| Printing.Port.RepChar | software/lab4LcdInterface_bsp/HAL/src/alt_log_printf.c:106-110 | A count below one prints nothing |
| Printing.Port.PutHex | software/lab4LcdInterface_bsp/HAL/src/alt_printf.c:84-113 | The nibble algorithm prints the shortest hexadecimal form |
| Printing.Port.HighestNibble | software/lab4LcdInterface_bsp/HAL/src/alt_printf.c:98-101 | The search ends at the leading hexadecimal digit |
| Printing.PlainHex | software/lab4LcdInterface_bsp/HAL/src/alt_printf.c:84-113 | Plain %x of the log printer prints that same string |
| Digits.TopIsShow | software/lab4LcdInterface_bsp/HAL/src/alt_log_printf.c:281-297 | Digits taken off from the top are the digits taken off from the bottom: the shortest numeral, of the counted length |
| Digits.ParseShow | software/lab4LcdInterface_bsp/HAL/src/alt_log_printf.c:281-297 | That numeral denotes the number and has no leading zero |
| Formats.FormatsMean | software/lab4LcdInterface_bsp/HAL/src/alt_log_printf.c:130-340 | For every format made of plain text, %% and conversions with any zero flag, width, precision, `l` and letter, the character state machine prints piece by piece what each means, with the arguments in order; precision and `l` have no effect |
| Formats.ConversionMeans | software/lab4LcdInterface_bsp/HAL/src/alt_log_printf.c:152-340 | One whole conversion, from its % to its letter |
| Formats.PrintDigits | software/lab4LcdInterface_bsp/HAL/src/alt_log_printf.c:176-196 | Width digits denote a number; digits after the point are read and forgotten |
| Formats.PrintersAgree | software/lab4LcdInterface_bsp/HAL/src/alt_printf.c:60-131 | On every format in which no % is followed by a modifier or by d, i, u, o or X, the two printers print the same characters |
| PrintfStandard.FollowsStandardIff | software/lab4LcdInterface_bsp/HAL/src/alt_log_printf.c:152-340 | For every conversion that section 7.19.6.1 of ISO/IEC 9899:1999 defines among the letters the printer knows, with any flag, width, precision and value: the printer prints what the standard asks for, letter by letter (radix, signedness, digits and their case), if and only if the stated condition on precision, width, flag and argument holds |
| PrintfStandard.FormatsFollow | software/lab4LcdInterface_bsp/HAL/src/alt_log_printf.c:130-340 | A whole format whose pieces meet that condition is printed as the standard asks, each conversion with the next argument |
| PrintfStandard.LettersRead | software/lab4LcdInterface_bsp/HAL/src/alt_log_printf.c:197-318 | For every integer letter, flag, width and precision the output reads back in the letter's radix as the value of the argument (two's complement for d and i, unsigned for u, o, x, X), and is made of blanks, a sign and digits of the letter's case |
| PrintfStandard.IntegerFollowsIff | software/lab4LcdInterface_bsp/HAL/src/alt_log_printf.c:176-297 | For integers with a precision: it adds no digits and the 0 flag does not pad, or the 0 flag happens to add as many digits; never for zero without digits |
| PrintfStandard.StringFollowsIff | software/lab4LcdInterface_bsp/HAL/src/alt_log_printf.c:324-337 | For strings: the precision cuts nothing off, or the padded string is all blanks |
| PrintfStandard.FollowsWithoutPrecision | software/lab4LcdInterface_bsp/HAL/src/alt_log_printf.c:152-340 | Without a precision always |
| PrintfStandard.PrecisionIsIgnored | software/lab4LcdInterface_bsp/HAL/src/alt_log_printf.c:172-175 | %.0d of 0, %.3d of 7 and %.1s of a longer string do not |
| Formats.LogPrintf | software/lab4LcdInterface_bsp/HAL/src/alt_log_printf.c:114-341 | The loop with its state variables is the fold of the machine over the format |
| Formats.PutConversion | software/lab4LcdInterface_bsp/HAL/src/alt_log_printf.c:198-339 | Each letter's base, sign, case and padding; unknown letters print nothing and take no argument |
| Formats.AltPrintf | software/lab4LcdInterface_bsp/HAL/src/alt_printf.c:51-131 | The other loop, with a % at the very end ignored |
| PrintfStandard.AltFormatsMean | software/lab4LcdInterface_bsp/HAL/src/alt_printf.c:60-131 | Whatever the format: alt_printf prints c, s and x as the standard asks of them plain, with the next argument; %% as a percent sign; any other letter, and a lone % at the end, as nothing |
| CacheFlush.FlushCoversIff | software/lab4LcdInterface_bsp/HAL/src/alt_dcache_flush.c:46-70 | A flush of a nonempty region of memory that ends touches every line of the region if and only if the region stops short of the top of memory or is an unaligned tail of the last line |
| CacheFlush.LoopEndsIff | software/lab4LcdInterface_bsp/HAL/src/alt_dcache_flush.c:50-56 | The loop ends if and only if start + len wraps or start + len rounded up to lines does not reach 2^32 |
| CacheFlush.EndlessFlush | software/lab4LcdInterface_bsp/HAL/src/alt_dcache_flush.c:53-56 | Start 0xFFFFFFD8, length 39, 32-byte lines: it never ends |
| CacheFlush.FlushTouchesLittleElse | software/lab4LcdInterface_bsp/HAL/src/alt_dcache_flush.c:58-67 | At most one line beyond the region is touched, and none if the start is aligned |
| CacheFlush.TouchesEachOnce | software/lab4LcdInterface_bsp/HAL/src/alt_dcache_flush.c:53-67 | The touched lines are consecutive from the first line of the region on, each touched once |
| CacheFlush.TouchedCount | software/lab4LcdInterface_bsp/HAL/src/alt_dcache_flush.c:53-67 | As many lines are touched as meet the region, or one more |
| CacheFlush.FlushRange | software/lab4LcdInterface_bsp/HAL/src/alt_dcache_flush.c:46-70 | The addresses flushed, in order, with pointer arithmetic modulo 2^32 |
| CacheFlush.ClippedFlushCovers | software/lab4LcdInterface_bsp/HAL/src/alt_icache_flush.c:53-74 | Clipping to the cache size loses nothing in a direct-mapped cache flushed by index: every line of the original region has its index flushed |
| CacheFlush.IcacheFlush | software/lab4LcdInterface_bsp/HAL/src/alt_icache_flush.c:42-84 | The clipped flush |

## Left out

- UartDriver.JtagUart.Write: the polling loop is observed for a given number of polls (`StillPolling` when that is used up), because it need not end; a negative count, which the C code treats as an empty one, is not modelled.
- UartDriver.JtagUart.Read: likewise for its polling loop and a negative space.
- UartDriver.JtagUart.Close: likewise for its polling loop.
- UartTheorems.RunsReportHonestly: what a blocking call saw is recorded when it read host_inactive; nothing is said about how long ago that was.
- AlarmList.AlarmSystem.AlarmStart: the alarm must not be linked already, because the C code would then corrupt the list.
- AlarmList.AlarmSystem.AlarmStop: the alarm must have been started once, because the C code follows its null links otherwise.
- UartTheorems.InputDelivers: one schedule is constructed; that every fair one delivers, as `EveryScheduleDrains` says for the other direction, is not stated.
- UartTheorems.EveryScheduleDrains: starts where the routine relies only on bits the device showed (`IsrHonest`), as between interrupts.
- AlarmList.AlarmSystem.Tick: callbacks that stop the saved successor are the subject of `AnyTurn`, one turn at a time; a whole tick with them may visit alarms twice, or not return, and when those alarms fire is not promised.
- AlarmList.AlarmSystem.Callback: callback context pointers, and callbacks that write into alarm structures themselves, are not modelled.
- DmaDriver.DmaDevice.PostSlot: send and prepare are one method with the ring as a parameter, because that is all they differ in; callbacks do not call ioctl.
- DmaDriver.DmaDevice.LaunchFromPost: the loads of the launch test are one step, and so are its two address writes, because no transfer is in flight then and so no interrupt comes between them.
- DmaDriver.DmaDevice.Control: likewise the stores after the guard are one step; the control register is a record of the fields the driver computes.
- DmaMachine.Step: the engine is taken to raise an interrupt for every transfer started, a zero-length one included, and to keep its length register nonzero while a transfer of nonzero length is in flight.
- FdPool.Pool.Open: name lookup, and the results of a device's own open, close and ioctl, are parameters, and the device does not write into the descriptor; a descriptor index must lie inside the table, as the C code has no upper check.
- WallClock.StepsBackIff: stored times whose microseconds leave no room in 32 bits for the sub-second part of a tick are excluded (`Settled`); setting a normalised time leaves none (`SetIsSettled`).
- WallClock.EveryRateStepsBack: clocks that lie before the epoch at count zero, whose readings the clamp may hold, are covered tick by tick by `StepsBackIff` only.
- WallClock.Clock.GetTimeOfDay: tv_sec and tv_usec are 32-bit signed on assignment; the additions inside the normalising loops are taken as unbounded, which they are in the C code exactly under the condition of `CarryFitsIff`.
- Formats.LogPrintf: widths are unbounded integers, so formats with a width of 2^31 or more are not modelled; arguments are words in order and strings are read through a memory function, so a mismatch of types has a meaning here that it lacks in C.
- PrintfStandard.FollowsStandardIff: flags, modifiers and conversions that the printer does not recognise, and negative widths from arguments, are not covered.
- CacheFlush.FlushRange: called only where the loop ends, which `LoopEndsIff` shows to be an exact condition on the arguments; what flushda does to a line is not modelled.
- CacheFlush.ClippedFlushCovers: takes as given that flushi acts on the index of a direct-mapped cache and on nothing else; the pipeline flush is not modelled.
- Semaphores and event flags expand to nothing in this configuration, and the interrupt enable shadow and the control register always agree, so each enable bit is one field.
- The ALT_LOG hooks inside the drivers print only, and are not modelled.
- No interrupt routine is preempted by itself or by another.
- The application programs, the small UART driver, multitasking, semihosting, direct-driver and IGNORE_FIFO_FULL_ERROR variants are not part of this model.
- Start-up code, always-failing system calls, sbrk, device registration and lookup, the performance counter and the timestamp timer would only add easy members.
- Busy-wait loops, exception entry and control register access are not modelled, other than as "no interrupt here".
