# Verification of the Nios II FreeRTOS and lwIP port

This project models the concurrent and stateful client code of the port and proves what that
code is for. `dafny verify dfyconfig.toml` checks it all.

- **Ethernet receive ring** (`RxRing`, `EthernetIf`). Three agents share twelve pbuf slots, two
  indices and a counter: the DMA engine, the receive interrupt and the polling consumer. One
  transition is one DMA completion, one run of the interrupt, or one statement of the consumer, so
  a theorem about event sequences is a theorem about interleavings. The ring size and the
  interrupt's threshold are parameters. `EthernetIf` is the driver updating its fields in place.
- **Transmit framing** (`TxChain`).
- **Priority-scheduled demos** (`Scheduler`, `Kernel`, `KernelRuns`, `RecMutex`, `GenQMutex`, `DynamicPriority`, and their
  in-place forms `RecMutexTasks`, `GenQTasks`, `DynamicTasks`). A small kernel with ready,
  delayed, suspended and blocked tasks, base and running priority, and a mutex with priority
  inheritance. One transition is one statement of a task the scheduler may run; among ready tasks
  of equal priority the choice is open. `Scheduler` proves, for any number of tasks, which runs of
  calls keep priority inheritance in force; `KernelRuns` takes the demos' three tasks as a scheduler
  of three, and the two mutex demos are proved to be careful runs of it.
- **Web server** (`Fs`, `RequestLine`, `Httpd`, `HttpServer`). The callbacks on one connection in
  any order in which lwIP may call them, with any answers of `tcp_sndbuf`, `tcp_write`,
  `tcp_close` and `mem_malloc`.
- **Command pipeline** (`SocketServer`, `Led`, `LedTasks`, `CommandPipeline`). Socket bytes, a
  receive buffer managed in place, a bounded queue, a toggle register, and a semaphore shared by
  two tasks, put together end to end.
- **Smaller theorems** (`SemTest`, `BlockQ`, `BlockQTasks`, `PollQ`, `PollQTasks`, `Usleep`,
  `LwipTimers`).

For the interleaved code there are two layers: a module with the transitions as functions and the
theorems about all runs, and a module with a class whose methods change the fields as the C code
does, each proved equal to a transition. `Common` holds shared lemmas on wrapping counters.

## What the model assumes

- FreeRTOS: `Kernel` states priority scheduling, suspension, delay, the mutex, inheritance and
  `vTaskPrioritySet` as queue.c and tasks.c of the port define them. A task readied by a give tries
  its take again when it next runs. Block times expire only where the demo gives a finite one.
- MicroC/OS-II: `OSQPost` fails exactly on a full queue; pends without timeout wait; flag and
  semaphore calls are atomic. The theorems of `Led` hold on every interleaving. Those that speak of
  the priorities let the server and the show run only while the management task, the most urgent of
  the three, has nothing to do, so that what it waits for is in effect handed to it.
- lwIP: callbacks come only while registered and not after the control block is gone; `tcp_abort`
  and resets call the error callback with the current argument; data after `tcp_close` aborts;
  `tcp_sndbuf` is a 16-bit value that does not change within one `send_data`; `mem_free(NULL)` does
  nothing. The bytes from a segment's payload to the first zero byte behind its 44th byte are
  readable, and the first 44 writable.
- Hardware: the DMA writes only the pbuf it is armed on, and raises one interrupt per frame.

## Where the code and its own description differ

- The comment at FPGA/software/lwIP_NIOS_II_Example/drivers/alteraTseEthernetif.c:103 says the
  current packet is dumped when there is no memory; the code leaves it in the ring for the next
  call. The model follows the code.
- The interrupt's guard (FPGA/software/lwIP_NIOS_II_Example/drivers/lwip_tse_mac.c:468) lets the
  counter reach one more than the ring size, so unread slots can be overwritten. N - 2 is proved to
  be the exact threshold, and for the guard as written the exact condition on a run is proved: a kept
  frame must find fewer than N - 1 unread slots.
- The demo at FPGA/software/FreeLwIP/dynamic.c:69 says the two counters are never both ready; that
  holds exactly from the limited task's first suspension on. Its error flag can be set without a fault, by a
  delay in which the continuous task gets no turn; the exact condition on the schedule is proved.
- The recursive-mutex demo can latch an error when the two-tick block time runs out, as its own
  comment concedes; the latch is proved to be set exactly then.
- The polled-queue demo says the queue is never full; that depends on the consumer starting, and
  sleeping, less than three producer periods, which any tick of 1 to 200 ms gives. With ticks longer
  than 20 ms the consumer's 20 ms lead truncates to nothing, and the queue can hold a second batch.
- The 100 ms AUTOIP and IGMP timers run every 500 ms, and after 2^32 ms timers with intervals in
  quarter seconds stop for 124 laps of the counter.
- The command queue is sized to thirty, and a full queue is treated as an error that only prints. It
  can fill only behind a show command that finds the show at work, and then a line of 32 commands
  loses one.
- `sss_handle_accept` does not close the socket it rejects, though its comment says so; the model
  follows the code. The terminating zero after `recv` is written one byte further than needed, which
  leaves the buffer when a piece fills it; a reply to 42 or more commands leaves the transmit buffer.
  Both are modelled as outcomes, with the exact conditions.
- `ALT_USLEEP` is exact for every argument only for tick rates that divide 10^6 and are at most 4294.

## Model

| member | source | states |
|---|---|---|
| RxRing.InOrderIffTwoSlotsSpare | FPGA/software/lwIP_NIOS_II_Example/drivers/alteraTseEthernetif.c:101-125 | for every ring size and threshold: on every interleaving of the DMA, the interrupt and the single statements of the consumer frames are handed up in arrival order, each once and with its own bytes, exactly when the interrupt stops accepting two slots short of the ring size; one short is too weak because the count is lowered before the slot is emptied |
| RxRing.Overrun | FPGA/software/lwIP_NIOS_II_Example/drivers/alteraTseEthernetif.c:114-118 | an explicit interleaving for every ring size whose threshold is N - 1 or more, through the window between the decrement and the swap, after which the consumer hands up bytes of a frame that was not next |
| RxRing.SafeLimitRuns | FPGA/software/lwIP_NIOS_II_Example/drivers/lwip_tse_mac.c:463-489 | with a threshold of at most N - 2 every reachable state is a queue: the ledger of accepted, in-hand and unread frames balances, each unread slot still holds its own frame, and the DMA is armed on no unread and no in-hand pbuf |
| RxRing.EveryRunKeepsRing | FPGA/software/lwIP_NIOS_II_Example/drivers/lwip_tse_mac.c:463-483 | with any threshold, the code's own included: the interrupt index stays congruent to the consumer index plus the count (plus one inside the window), the count stays between 0 and the threshold, both indices stay in range, and every pbuf has exactly one owner among pool, ring slots, consumer, stack and lost |
| RxRing.OneOwner | FPGA/software/lwIP_NIOS_II_Example/drivers/alteraTseEthernetif.c:105-118 | single ownership means distinct slots and no pbuf both in a slot and in the pool, the stack or the consumer's hand |
| RxRing.FifoIffRoomy | FPGA/software/lwIP_NIOS_II_Example/drivers/lwip_tse_mac.c:468-480 | run by run, for every ring size and any threshold: the ring is a queue at every point of a run exactly when every interrupt that keeps a frame finds fewer than N - 1 unread slots, the count plus one inside the window |
| RxRing.DriverInOrderIff | FPGA/software/lwIP_NIOS_II_Example/drivers/lwip_tse_mac.c:468-480 | for the guard as written (N = 12, a frame kept with a count of up to 12): the ring is a queue throughout a run exactly when at every such interrupt the count, plus one while the consumer is between its decrement and its swap, is below 11 |
| RxRing.DriverInOrderWithinBacklog | FPGA/software/lwIP_NIOS_II_Example/drivers/lwip_tse_mac.c:468-480 | so it is one whenever the count is below 10 at each interrupt |
| RxRing.EveryRunCountsBytes | FPGA/software/lwIP_NIOS_II_Example/drivers/lwip_tse_mac.c:475-475 | bytes_recv is the total length of the accepted frames modulo 2^32, on every run |
| RxRing.OnlyEmptyFramesLosePbufs | FPGA/software/lwIP_NIOS_II_Example/drivers/alteraTseEthernetif.c:122-125 | a pbuf is leaked only by a frame whose length reads zero: a run that disposed of no empty frame lost none |
| RxRing.CpuConserves | FPGA/software/lwIP_NIOS_II_Example/drivers/alteraTseEthernetif.c:147-174 | every statement of the consumer, the disposal by ethernetif_input included, keeps exactly one owner for each pbuf |
| RxRing.DispatchDecides | FPGA/software/lwIP_NIOS_II_Example/drivers/alteraTseEthernetif.c:157-173 | the packet in hand is afterwards with the stack exactly when its type is known and input accepted it, and in the pool otherwise, and no other pbuf changes owner |
| RxRing.StepOwners | FPGA/software/lwIP_NIOS_II_Example/drivers/alteraTseEthernetif.c:105-173 | which pbufs one event moves: to the stack only the packet in hand with a known type and an accepting input, out of it only one that is freed, to the pool only one refused or freed, out of it only the one allocated, and lost only one whose length reads zero |
| RxRing.StackHasWhatItWasGiven | FPGA/software/lwIP_NIOS_II_Example/drivers/alteraTseEthernetif.c:157-173 | on every run with any threshold: the stack has a pbuf exactly when at some event it was handed a packet in that pbuf of a known type that input accepted (or had it from the start), and has not freed it since |
| RxRing.NoMemoryNoChange | FPGA/software/lwIP_NIOS_II_Example/drivers/alteraTseEthernetif.c:101-111 | a call of low_level_input without memory leaves the whole state as it was, the frame in its slot and the count included |
| RxRing.CpuKeepsSafe | FPGA/software/lwIP_NIOS_II_Example/drivers/alteraTseEthernetif.c:101-125 | each single statement of the consumer keeps the queue property, whatever the threshold |
| RxRing.IsrKeepsSafe | FPGA/software/lwIP_NIOS_II_Example/drivers/lwip_tse_mac.c:454-492 | one run of the receive interrupt keeps the queue property when the threshold leaves two slots |
| EthernetIf.Ethernetif.EthernetifInit | FPGA/software/lwIP_NIOS_II_Example/drivers/alteraTseEthernetif.c:230-241 | set-up succeeds exactly when the pool has a pbuf for every slot, and then leaves distinct pbufs in all slots, zero indices and count, and the DMA armed on slot 0 |
| EthernetIf.Ethernetif.FillRing | FPGA/software/lwIP_NIOS_II_Example/drivers/alteraTseEthernetif.c:230-238 | the set-up loop deals pbufs so that each is in one slot or still in the pool |
| EthernetIf.Ethernetif.TseMacRcv | FPGA/software/lwIP_NIOS_II_Example/drivers/lwip_tse_mac.c:454-492 | the in-place interrupt routine is the ring's interrupt transition: label, keep or drop, re-arm |
| EthernetIf.Ethernetif.Statement | FPGA/software/lwIP_NIOS_II_Example/drivers/alteraTseEthernetif.c:101-174 | the consumer's next statement, updating the fields in place, is the ring's consumer transition |
| EthernetIf.Ethernetif.StoreSlot | FPGA/software/lwIP_NIOS_II_Example/drivers/alteraTseEthernetif.c:118-118 | the swap replaces one slot and nothing else |
| EthernetIf.Ethernetif.Dispose | FPGA/software/lwIP_NIOS_II_Example/drivers/alteraTseEthernetif.c:147-174 | of the two sets the stack gains exactly the packet whose type is known and which input accepts, and the pool exactly any other |
| EthernetIf.Ethernetif.Run | FPGA/software/lwIP_NIOS_II_Example/drivers/alteraTseEthernetif.c:94-175 | the driver's fields follow the ring's transitions on every interleaving |
| EthernetIf.Ethernetif.InitAndRun | FPGA/software/lwIP_NIOS_II_Example/drivers/lwip_tse_mac.c:454-492 | the driver's fields are where the events lead from an initial state of the ring; ownership, congruence and byte count hold, the stack has the pbufs it was given and has not freed, and the queue property holds whenever each interrupt finds room |
| TxChain.Transmitter.RawSend | FPGA/software/lwIP_NIOS_II_Example/drivers/lwip_tse_mac.c:394-445 | the fragments put on the wire, one per pbuf, concatenate to the chain's payload in order, start-of-packet on the first only and end-of-packet on the last only; bytes_sent grows by the reported lengths modulo 2^32, which is the payload length when each write is full |
| TxChain.Transmitter.Aligned | FPGA/software/lwIP_NIOS_II_Example/drivers/lwip_tse_mac.c:414-428 | the bounce buffer hands the DMA the same bytes |
| TxChain.FullWritesSum | FPGA/software/lwIP_NIOS_II_Example/drivers/lwip_tse_mac.c:440-441 | full synchronous writes add up to the chain's payload length |
| Scheduler.RunKeepsInheritedIff | FPGA/software/FreeLwIP_bsp/FreeRTOS/src/tasks.c:2381-2437 | for any number of tasks and any order among equally urgent waiters, over every run of takes, gives, priority changes, suspensions, delays and expiries by the tasks the scheduler picks: inheritance is in force throughout exactly when every call was careful: no wait for one's own mutex, no lowering of an own priority below a waiter that counts on it, no stepping back between a give and the take it was for |
| Scheduler.NoInversionAfter | FPGA/software/FreeLwIP_bsp/FreeRTOS/src/tasks.c:2381-2410 | after any careful run of any number of tasks the running task is at least as urgent as every waiter, unless the holder itself sleeps |
| KernelRuns.SleepingHolderInverts | FPGA/software/FreeLwIP_bsp/FreeRTOS/src/queue.c:985-1104 | the exception is needed: a careful run of three tasks in which a holder sleeps and a less urgent task runs ahead of the waiter |
| Scheduler.ApplyKeepsInheritedIff | FPGA/software/FreeLwIP_bsp/FreeRTOS/src/queue.c:464-546 | one call keeps inheritance exactly when it is careful |
| Scheduler.TakeIff | FPGA/software/FreeLwIP_bsp/FreeRTOS/src/queue.c:985-1104 | taking a mutex, or waiting for it, keeps inheritance exactly when the task does not wait for itself |
| Scheduler.ReleaseKeeps | FPGA/software/FreeLwIP_bsp/FreeRTOS/src/queue.c:464-546 | the last give disinherits, readies one of the most urgent waiters, whichever, and keeps inheritance for all those left |
| Scheduler.SetPriorityIff | FPGA/software/FreeLwIP_bsp/FreeRTOS/src/tasks.c:760-861 | changing the running task's priority keeps inheritance exactly when it is inherited, unchanged, or still covers the waiters that count on it |
| Scheduler.SleepIff | FPGA/software/FreeLwIP_bsp/FreeRTOS/src/tasks.c:868-925 | going to sleep keeps it exactly when, while the mutex is free, every waiter stays covered by another ready task |
| Scheduler.System.TopAmong | FPGA/software/FreeLwIP_bsp/FreeRTOS/src/queue.c:1234-1246 | among any number of tasks the waiter found is one of the highest priority |
| Scheduler.WhatWakes | FPGA/software/FreeLwIP_bsp/FreeRTOS/src/tasks.c:965-1010 | a delayed task becomes ready only by the end of its delay, a suspended one only by a resume, a waiter only by the end of its block time or a give that frees the mutex; a ready task stops being so only by its own calls |
| Scheduler.WhatMovesPriority | FPGA/software/FreeLwIP_bsp/FreeRTOS/src/tasks.c:2381-2437 | other than by its own change only the priority of the mutex's holder moves: up to the taker's when a more urgent task waits, and back to the base with the give that frees the mutex |
| KernelRuns.SameApply | FPGA/software/FreeLwIP_bsp/FreeRTOS/src/queue.c:577-618 | every call does to the demos' three tasks what it does to them as a scheduler of three |
| KernelRuns.AfterCareful | FPGA/software/FreeLwIP_bsp/FreeRTOS/src/tasks.c:2381-2437 | so inheritance is in force after every careful run of the three |
| RecMutex.ErrorIffTakeFails | FPGA/software/FreeLwIP/recmutex.c:166-355 | on every schedule the priorities allow, xErrorOccurred is set exactly when the controlling task's two-tick take ran out while another task held the mutex |
| RecMutex.NoExpiryNoError | FPGA/software/FreeLwIP/recmutex.c:192-199 | a run in which no block time expires never sets the latch |
| RecMutex.EveryGoodRunShowsTheDemo | FPGA/software/FreeLwIP/recmutex.c:67-101 | only a holder gives; the controlling task has taken ten deep before its first give; the blocking task gets the mutex only with the controlling task suspended, the polling task only with both suspended; the polling task gives at the controlling task's priority; the cycle counts are in lock step when compared |
| RecMutex.ExpiryCanSetTheLatch | FPGA/software/FreeLwIP/recmutex.c:322-330 | the hypothesis is needed: a run through a whole cycle and the hand-over in which the block time expires and the latch is set |
| RecMutex.EveryScheduleCounts | FPGA/software/FreeLwIP/recmutex.c:233-235 | the demo keeps cycling: without expiries every schedule that does something more than Rank times counts a controlling cycle |
| RecMutex.NeverStuck | FPGA/software/FreeLwIP/recmutex.c:67-101 | in every state that the invariant of runs without the failing take describes some statement that changes something, or the end of a delay, is to come |
| RecMutex.GoodRunInherits | FPGA/software/FreeLwIP/recmutex.c:98-100 | a run without the failing take is a careful run of the kernel, so inheritance is in force throughout |
| RecMutex.ControllingKeeps | FPGA/software/FreeLwIP/recmutex.c:173-241 | each statement of the controlling task but the expired take keeps the phases of the cycle and the latch |
| RecMutex.BlockingKeeps | FPGA/software/FreeLwIP/recmutex.c:250-295 | each statement of the blocking task keeps them |
| RecMutex.PollingKeeps | FPGA/software/FreeLwIP/recmutex.c:304-354 | each statement of the polling task keeps them |
| RecMutexTasks.Demo.ControllingTask | FPGA/software/FreeLwIP/recmutex.c:166-242 | the loop body updating its variables in place is the controlling task's transition |
| RecMutexTasks.Demo.BlockingTask | FPGA/software/FreeLwIP/recmutex.c:245-296 | likewise for the blocking task |
| RecMutexTasks.Demo.PollingTask | FPGA/software/FreeLwIP/recmutex.c:299-355 | likewise for the polling task |
| RecMutexTasks.RunDemo | FPGA/software/FreeLwIP/recmutex.c:133-134 | the shared variables after any schedule: the latch is set exactly when a take ran out, and while it is clear the demo's claims hold |
| GenQMutex.EveryRunShowsInheritance | FPGA/software/FreeLwIP/GenQTest.c:415-556 | on every schedule the latch stays clear; from the high task's block to the give the low task runs at the high priority, through its own priority change; then it drops to the base it had set; the guarded variable is 0 up to the give and 1 when the low task next runs |
| GenQMutex.EveryScheduleCounts | FPGA/software/FreeLwIP/GenQTest.c:503-504 | the stall counter keeps moving: from every reachable state every long enough schedule counts a loop |
| GenQMutex.StepLowersRank | FPGA/software/FreeLwIP/GenQTest.c:428-509 | every statement of any of the three tasks brings the low task's next loop count nearer |
| GenQMutex.SomeTaskRuns | FPGA/software/FreeLwIP/GenQTest.c:107-120 | the demo never deadlocks: in every reachable state some task can run |
| GenQMutex.EveryRunIsCareful | FPGA/software/FreeLwIP/GenQTest.c:457-464 | every run of the demo is a careful run of the kernel, its own priority changes included |
| GenQTasks.Demo.LowPriorityTask | FPGA/software/FreeLwIP/GenQTest.c:415-510 | the loop body updating its variables in place is the low task's transition |
| GenQTasks.Demo.MediumPriorityTask | FPGA/software/FreeLwIP/GenQTest.c:513-528 | likewise for the medium task |
| GenQTasks.Demo.HighPriorityTask | FPGA/software/FreeLwIP/GenQTest.c:531-556 | likewise for the high task |
| GenQTasks.RunDemo | FPGA/software/FreeLwIP/GenQTest.c:415-556 | the shared variables after any schedule: latch clear and the demo's claims hold |
| DynamicPriority.EveryRunShowsTheDemo | FPGA/software/FreeLwIP/dynamic.c:67-117 | the counters are both ready exactly until the limited task has first suspended; the controller never runs inside the continuous task's raised region; it returns from resuming the limited task only with the counter at 0xff; its error flag is set exactly when some comparison followed a delay with no increments modulo 2^32 |
| DynamicPriority.TheLoopTurns | FPGA/software/FreeLwIP/dynamic.c:269-333 | from every state with the loop counter in range the controller's place in its loop of 42 statements advances by one with each of its turns and with nothing else, so any of them, the resuming of the limited task included, is at most 41 turns away |
| DynamicPriority.TheLimitedTaskIsResumed | FPGA/software/FreeLwIP/dynamic.c:269-315 | from every state of the invariant a number of controller turns below 42, fixed by the place, brings the controller to the resuming of the limited task |
| DynamicPriority.FiveComparisons | FPGA/software/FreeLwIP/dynamic.c:277-315 | on every run the comparisons since the loop began are those behind the controller's place, exactly five when it resumes the limited task |
| DynamicPriority.CheckCountsTheRounds | FPGA/software/FreeLwIP/dynamic.c:323-329 | on every run with the error flag clear the check variable is the number of rounds: one in every 42 turns of the controller, modulo 2^16 |
| DynamicPriority.ErrorStopsTheCount | FPGA/software/FreeLwIP/dynamic.c:323-329 | once set the error flag stays set and the check variable stands still |
| DynamicPriority.ControllerIsNext | FPGA/software/FreeLwIP/dynamic.c:278-315 | a controller that is not in its delay is held up only by statements of the other two that bring its turn nearer, and one of them can always be executed |
| DynamicPriority.CounterCounts | FPGA/software/FreeLwIP/dynamic.c:272-310 | on every run the shared counter is the number of increments of both tasks since the controller last cleared it, modulo 2^32 |
| DynamicPriority.EveryThirdTurnIncrements | FPGA/software/FreeLwIP/dynamic.c:244-253 | on every run the continuous task reads its priority once and then increments at every third of its turns |
| DynamicPriority.LimitedRunEnds | FPGA/software/FreeLwIP/dynamic.c:216-225 | the limited run terminates at the limit: resumed, the limited task alone runs and each statement lowers the distance to its suspension |
| DynamicPriority.ErrorIffStalls | FPGA/software/FreeLwIP/dynamic.c:281-301 | the error flag is set exactly when the schedule has a comparison before which the continuous task made no increment, or a multiple of 2^32, since the mirror was taken |
| DynamicPriority.BusyDelaysNeverLatch | FPGA/software/FreeLwIP/dynamic.c:285-298 | a schedule with one to 2^32 - 1 increments in every delay never sets the flag |
| DynamicPriority.StallSetsTheLatch | FPGA/software/FreeLwIP/dynamic.c:286-298 | a schedule that gives the continuous task no turn during the delay sets the flag |
| DynamicPriority.ControllerKeeps | FPGA/software/FreeLwIP/dynamic.c:269-333 | each statement of the controller keeps the phases of the demo |
| DynamicTasks.Demo.LimitedIncrementTask | FPGA/software/FreeLwIP/dynamic.c:204-226 | the loop body updating the counter in place is the limited task's transition |
| DynamicTasks.Demo.ContinuousIncrementTask | FPGA/software/FreeLwIP/dynamic.c:233-254 | likewise for the continuous task |
| DynamicTasks.Demo.CounterControlTask | FPGA/software/FreeLwIP/dynamic.c:260-334 | likewise for the controller |
| DynamicTasks.RunDemo | FPGA/software/FreeLwIP/dynamic.c:204-334 | the shared variables after any schedule, with the error flag decided by the schedule and the check variable by the controller's turns |
| SemTest.Demo.SemaphoreTest | FPGA/software/FreeLwIP/semtest.c:217-255 | the loop body updating the shared variable in place is one step of the chosen task and leaves the others alone |
| SemTest.EveryRunExcludes | FPGA/software/FreeLwIP/semtest.c:187-260 | any number of tasks under any schedule: never two inside, no sError ever set, the variable agreeing with the holder's counter, and at its expected value whenever the semaphore is free |
| SemTest.RunDemo | FPGA/software/FreeLwIP/semtest.c:187-260 | the semaphore, the variable and the tasks' variables are where the schedule leads |
| SemTest.StepKeeps | FPGA/software/FreeLwIP/semtest.c:217-255 | one statement of any task keeps mutual exclusion and the account of the variable |
| SemTest.CycleAdvances | FPGA/software/FreeLwIP/semtest.c:233-255 | a task with the semaphore reaches its tally, and the tally counts |
| BlockQ.EveryRunInOrder | FPGA/software/FreeLwIP/BlockQ.c:221-286 | for every capacity, priorities, block times, schedule and expiries: everything posted is checked, in hand or queued, consecutive modulo 2^16, so the consumer never catches up |
| BlockQ.ProducerRunsOnEmptyQueue | FPGA/software/FreeLwIP/BlockQ.c:70-74 | a consumer of higher priority that is preempting on reads lets the producer run only while it waits for an empty queue |
| BlockQ.PreemptedProducerNeverFails | FPGA/software/FreeLwIP/BlockQ.c:170-182 | so the non-blocking producer of the first pair never finds the queue full |
| BlockQ.ErrorIffSendFails | FPGA/software/FreeLwIP/BlockQ.c:231-234 | the producer's flag is set exactly when some send ran on a full queue without a block time left |
| BlockQ.NoExpiryNoError | FPGA/software/FreeLwIP/BlockQ.c:76-81 | a blocking producer sees no error until its block time has run out |
| BlockQ.NeverDeadlocks | FPGA/software/FreeLwIP/BlockQ.c:221-286 | the two tasks never wait for each other |
| BlockQ.TheThreePairs | FPGA/software/FreeLwIP/BlockQ.c:139-218 | the three pairs with the capacities, priorities and block times they are created with |
| BlockQ.EveryScheduleDelivers | FPGA/software/FreeLwIP/BlockQ.c:221-286 | the demo goes on: for every pair, every run in which the tasks do something more than twice the capacity plus thirteen times, with no block time running out, checks another value |
| BlockQ.NeverStuckIff | FPGA/software/FreeLwIP/BlockQ.c:221-286 | on every run one of the two can do something exactly when the more urgent of them blocks on the queue |
| BlockQ.ThePairsNeverStick | FPGA/software/FreeLwIP/BlockQ.c:139-218 | as the three pairs do |
| BlockQ.StepBlocks | FPGA/software/FreeLwIP/BlockQ.c:231-262 | a task blocks exactly when the queue has nothing for it and it has a block time that has not just run out |
| BlockQTasks.Demo.BlockingQueueProducer | FPGA/software/FreeLwIP/BlockQ.c:221-249 | the producer's loop updating the queue in place is its transition |
| BlockQTasks.Demo.BlockingQueueConsumer | FPGA/software/FreeLwIP/BlockQ.c:252-286 | likewise for the consumer |
| BlockQTasks.RunDemo | FPGA/software/FreeLwIP/BlockQ.c:221-286 | queue, tasks and flags are where the schedule leads |
| PollQ.BatchesIff | FPGA/software/FreeLwIP/PollQ.c:153-229 | with the consumer sleeping less than k producer periods, k up to three, the queue never exceeds k batches exactly when the consumer's first run comes less than k periods late |
| PollQ.EveryRunInOrder | FPGA/software/FreeLwIP/PollQ.c:153-229 | whatever the delays and starts: each value sent is received once and in order, the rest is queued, and the consumer never sees a wrong value |
| PollQ.ProducerIsOnTime | FPGA/software/FreeLwIP/PollQ.c:153-183 | the producer attempts exactly three sends in each of its periods, successful or not, and begins its n-th round n delays after its first |
| PollQ.NoErrorsIff | FPGA/software/FreeLwIP/PollQ.c:155-229 | with it sleeping less than three periods, neither error flag is set on any run exactly when its first run comes less than three periods late |
| PollQ.NeverFailsIff | FPGA/software/FreeLwIP/PollQ.c:108-112 | from all such starts no error is seen exactly when the consumer sleeps less than three producer periods |
| PollQ.NeverBehindIff | FPGA/software/FreeLwIP/PollQ.c:108-112 | from all starts less than k periods late at most k batches are queued exactly when the consumer sleeps less than k producer periods; k = 1 is the one-batch bound |
| PollQ.OneBatchIff | FPGA/software/FreeLwIP/PollQ.c:108-112 | with the delays as computed from the tick the queue holds one batch at most, from every start less than a period late, exactly when a tick is at most 20 ms |
| PollQ.DelaysAreOrderedIff | FPGA/software/FreeLwIP/PollQ.c:109-110 | the consumer's delay as computed is the shorter exactly when a tick is at most 20 ms |
| PollQ.EveryTickIsSafe | FPGA/software/FreeLwIP/PollQ.c:109-110 | with any tick of 1 to 200 ms the flags depend on the start alone |
| PollQTasks.Demo.PolledQueueProducer | FPGA/software/FreeLwIP/PollQ.c:148-184 | the producer's loop updating the queue in place is its transition |
| PollQTasks.Demo.PolledQueueConsumer | FPGA/software/FreeLwIP/PollQ.c:187-230 | likewise for the consumer |
| PollQTasks.RunDemo | FPGA/software/FreeLwIP/PollQ.c:148-230 | both loops under any interleaving and any offsets |
| Usleep.AlwaysExactIff | freeRTOS_lwIP_src/altera_nios2/FreeRTOS/src/alt_usleep.c:82-104 | every 32-bit sleep is exact, ticks plus busy remainder, precisely when the tick rate divides 10^6 and is at most 4294 |
| Usleep.AltUsleep | freeRTOS_lwIP_src/altera_nios2/FreeRTOS/src/alt_usleep.c:63-107 | the delay calls and the busy remainder of the code, with and without the scheduler, and their exact sum for such a rate |
| Usleep.DelayTicks | freeRTOS_lwIP_src/altera_nios2/FreeRTOS/src/alt_usleep.c:91-97 | the chunks each fit 16 bits, all but the last are full, and they sum to the ticks |
| Usleep.NoOverflow | freeRTOS_lwIP_src/altera_nios2/FreeRTOS/src/alt_usleep.c:83-83 | up to 4294 ticks a second neither product nor the sum wraps |
| LwipTimers.HandlerRuns | FPGA/software/lwIP_NIOS_II_Example/main.c:140-161 | a handler whose interval is k quarter seconds has run exactly floor(n/k) times after n calls, before the counter wraps |
| LwipTimers.HundredRuns | FPGA/software/lwIP_NIOS_II_Example/main.c:149-154 | the two 100 ms handlers run only at every other call |
| LwipTimers.MultipleOf250Iff | FPGA/software/lwIP_NIOS_II_Example/main.c:143-145 | the wrapped counter is a multiple of 250 exactly in every 125th lap |
| LwipTimers.NoRunsAfterTheWrap | FPGA/software/lwIP_NIOS_II_Example/main.c:143-160 | so no handler with an interval in quarter seconds runs in the 124 laps after the first |
| LwipTimers.Dispatcher.ProcessTimers | FPGA/software/lwIP_NIOS_II_Example/main.c:140-162 | one call clears the flag, advances the 32-bit counter and runs the handlers that are due |
| LwipTimers.Dispatcher.MainLoop | FPGA/software/lwIP_NIOS_II_Example/main.c:128-135 | for any number of alarms before each pass: one call for each pass before which the alarm fired, and every tally the exact quotient until the wrap |
| LwipTimers.NoneLostIff | FPGA/software/lwIP_NIOS_II_Example/main.c:128-135 | no quarter second is lost exactly when at most one alarm falls before each pass |
| Httpd.EveryRunFreesOnce | FPGA/software/lwIP_NIOS_II_Example/drivers/httpd.c:48-67 | over every sequence of callbacks and every answer of lwIP the http_state block is freed at most once, exactly once when the connection is over and never before; callbacks are registered only while it is allocated; and there are never more than three polls in a row without a sent callback |
| Httpd.EveryRunSendsAPrefix | FPGA/software/lwIP_NIOS_II_Example/drivers/httpd.c:70-97 | what has been written is exactly the first len - left bytes of the chosen file |
| Httpd.SendDataGives | FPGA/software/lwIP_NIOS_II_Example/drivers/httpd.c:77-97 | whatever tcp_sndbuf and tcp_write answer: when the last attempt is accepted with a file open its bytes are sent, skipped and no longer left, and otherwise nothing changes |
| Httpd.OutIsWhatTcpAccepted | FPGA/software/lwIP_NIOS_II_Example/drivers/httpd.c:70-143 | on every run what has been written is the concatenation of all pieces tcp_write accepted, whether at a request, a poll or a sent callback |
| Httpd.SendDataEnds | FPGA/software/lwIP_NIOS_II_Example/drivers/httpd.c:77-89 | send_data makes at most fifteen attempts, the first of min(sndbuf, left), each later one half of the refused one and at least two bytes, none above sndbuf, left or 16 bits |
| Httpd.WriteIsTheLast | FPGA/software/lwIP_NIOS_II_Example/drivers/httpd.c:84-94 | what is written is the last attempt, and the loop gives up only below four bytes |
| Httpd.SentClosesIffWritten | FPGA/software/lwIP_NIOS_II_Example/drivers/httpd.c:126-141 | the sent callback closes the connection exactly when the whole file has been written |
| Httpd.FourQuietPollsEnd | FPGA/software/lwIP_NIOS_II_Example/drivers/httpd.c:99-122 | from every state, four polls with no sent callback in between end the connection whatever else happens |
| Httpd.TheWholeFileIsServed | FPGA/software/lwIP_NIOS_II_Example/drivers/httpd.c:99-138 | while TCP accepts something at every sent callback the whole file is written and the connection closed by the time there have been left + 1 of them, whatever further segments arrive and with up to three polls between two |
| Httpd.AGetIsAnswered | FPGA/software/lwIP_NIOS_II_Example/drivers/httpd.c:160-189 | from the accepted connection, after anything but a segment, a close, a reset or a fourth poll: a first segment with a GET for a URI opens the file wanted, writes the piece TCP accepts and registers the sent callback |
| Httpd.AnythingElseIsRefused | FPGA/software/lwIP_NIOS_II_Example/drivers/httpd.c:163-193 | a first segment that is no GET frees the block and closes the connection, with nothing written |
| Httpd.AGetIsServed | FPGA/software/lwIP_NIOS_II_Example/drivers/httpd.c:99-203 | from the accepted connection to its end: while TCP accepts something at every sent callback a GET is answered with the whole file wanted, and the connection is closed |
| Httpd.EndsIff | FPGA/software/lwIP_NIOS_II_Example/drivers/httpd.c:99-203 | a live connection ends with exactly these events: a reset, the peer's close, a first segment that is no GET, a sent callback with everything written, a fourth quiet poll |
| Httpd.HowItEnds | FPGA/software/lwIP_NIOS_II_Example/drivers/httpd.c:59-67 | then the block is freed, no callback stays registered, nothing is written, and the control block is as tcp_close answers, or gone after a reset or an abort |
| Httpd.AfterTheEnd | FPGA/software/lwIP_NIOS_II_Example/drivers/httpd.c:107-110 | after that nothing but the control block changes, and exactly a late segment, a reset, a time-out or a poll in ESTABLISHED takes it away |
| Httpd.RefusedForGood | FPGA/software/lwIP_NIOS_II_Example/drivers/httpd.c:220-225 | without memory for the block the connection is refused, and nothing happens on it |
| Httpd.TheFirstRequestCounts | FPGA/software/lwIP_NIOS_II_Example/drivers/httpd.c:160-196 | the first GET chooses the file and no later event changes it |
| Httpd.PollReleasesIff | FPGA/software/lwIP_NIOS_II_Example/drivers/httpd.c:107-110 | after a failed tcp_close the next poll aborts exactly when the connection is still in ESTABLISHED |
| Httpd.StepKeeps | FPGA/software/lwIP_NIOS_II_Example/drivers/httpd.c:48-245 | each event keeps the block's lifetime, the stream and the retry count |
| HttpServer.Connection.TryToWrite | FPGA/software/lwIP_NIOS_II_Example/drivers/httpd.c:77-89 | the lengths the loop gives to tcp_write, and how it ends, are those SendDataEnds and WriteIsTheLast speak of |
| HttpServer.Connection.SendData | FPGA/software/lwIP_NIOS_II_Example/drivers/httpd.c:70-97 | send_data in place is the specification's step, of which SendDataGives says what it hands to TCP |
| HttpServer.Connection.HttpPoll | FPGA/software/lwIP_NIOS_II_Example/drivers/httpd.c:99-123 | http_poll in place |
| HttpServer.Connection.HttpSent | FPGA/software/lwIP_NIOS_II_Example/drivers/httpd.c:125-143 | http_sent in place |
| HttpServer.Connection.HttpRecv | FPGA/software/lwIP_NIOS_II_Example/drivers/httpd.c:145-203 | http_recv in place, rewriting the received segment, is the step of which AGetIsAnswered and AnythingElseIsRefused speak |
| HttpServer.Connection.HttpAccept | FPGA/software/lwIP_NIOS_II_Example/drivers/httpd.c:205-245 | http_accept in place, with and without memory |
| HttpServer.Connection.CloseConn | FPGA/software/lwIP_NIOS_II_Example/drivers/httpd.c:59-67 | close_conn in place, with any answer of tcp_close |
| HttpServer.Connection.Abort | FPGA/software/lwIP_NIOS_II_Example/lwip/src/core/tcp.c:357-416 | tcp_abort calls conn_err with the current argument, once |
| HttpServer.Serve | FPGA/software/lwIP_NIOS_II_Example/drivers/httpd.c:145-245 | a whole connection: freed exactly once if it ends, and what was sent is what tcp_write accepted, a prefix of the file |
| RequestLine.EveryUriIsServed | FPGA/software/lwIP_NIOS_II_Example/drivers/httpd.c:163-181 | every GET Request-Line (section 5.1 of RFC 1945) gets the file its URI names, the index for "/", and the 404 page otherwise, in a file system whose names have fewer than forty bytes |
| RequestLine.NameIsUriIff | FPGA/software/lwIP_NIOS_II_Example/drivers/httpd.c:164-175 | the URI reaches fs_open whole exactly when it has at most 39 bytes |
| RequestLine.Rewrite | FPGA/software/lwIP_NIOS_II_Example/drivers/httpd.c:164-170 | the loop zeroes the delimiters among forty bytes of the segment and changes nothing else |
| RequestLine.Select | FPGA/software/lwIP_NIOS_II_Example/drivers/httpd.c:163-181 | the file http_recv opens |
| Fs.FsOpen | FPGA/software/lwIP_NIOS_II_Example/drivers/fs.c:45-59 | the list walk opens the file of that name or reports that there is none |
| Fs.OpensTheFirst | FPGA/software/lwIP_NIOS_II_Example/drivers/fs.c:49-57 | the file opened is the first of that name in the list, and there is none exactly when no file has it |
| SocketServer.SSSConn.HandleReceive | FPGA/software/sss/simple_socket_server.c:336-391 | for every cutting of the stream into recv pieces the outcome and the two positions are those After gives for the stream and the sizes; the bytes carried out are the first of the stream and those taken beyond them are in the buffer; the posts are, in order, the upper-cased printable bytes other than Q of those carried out; a quit closes and resets; with data always ready everything is taken and nothing the server would act on is left |
| SocketServer.OverrunsIff | FPGA/software/sss/simple_socket_server.c:346-384 | a run ends in an overrun of the receive buffer exactly when at some turn a piece fills it behind bytes without a visible newline, and of the transmit buffer exactly when at some turn the bytes carried out get a reply of 1500 bytes or more |
| SocketServer.GentleClient | FPGA/software/sss/simple_socket_server.c:346-384 | a client whose line and piece together fit the receive buffer, with replies that fit theirs, causes no overrun at any turn |
| SocketServer.SSSConn.Pass | FPGA/software/sss/simple_socket_server.c:346-384 | one pass keeps the buffer zero from the write position on, and moves the outcome and the two positions as Next says: everything taken is carried out when a newline is visible, else more is taken |
| SocketServer.SSSConn.ExecCommand | FPGA/software/sss/simple_socket_server.c:265-313 | sss_exec_command carries out every buffered byte: the printable ones other than q and Q are posted, letters as capitals, q or Q closes, and the reply fits exactly when shorter than 1500 |
| SocketServer.SSSConn.Ask | FPGA/software/sss/simple_socket_server.c:359-368 | recv fills at most the room left, and the terminating zero stays inside exactly when the buffer did not become full |
| SocketServer.SSSConn.FindNewline | FPGA/software/sss/simple_socket_server.c:349-349 | the newline search stays inside the buffer and finds a newline exactly when no zero byte hides it |
| SocketServer.SSSConn.ManageBuffer | FPGA/software/sss/simple_socket_server.c:378-383 | memmove and memset keep the unread bytes and zero the rest |
| SocketServer.SSSConn.Reset | FPGA/software/sss/simple_socket_server.c:173-182 | the connection is back in its ready state with an all-zero buffer |
| SocketServer.SSSConn.HandleAccept | FPGA/software/sss/simple_socket_server.c:220-249 | a second client never displaces the first |
| SocketServer.SSSConn.ServeLines | FPGA/software/sss/simple_socket_server.c:336-391 | whole lines without zero bytes are carried out to the last byte up to a quit, with no overrun, when line and piece together fit the receive buffer and the replies to as many bytes fit theirs |
| SocketServer.WholeLinesAreCarriedOut | FPGA/software/sss/simple_socket_server.c:316-335 | once the server waits, a stream of whole lines has been carried out completely, however it was cut |
| SocketServer.ReplyFitsIff | FPGA/software/sss/simple_socket_server.c:293-299 | the reply with its final zero fits the transmit buffer exactly when 36 bytes for each command and 62 for each quit come to less than 1500: 41 commands |
| SocketServer.OnePieceFills | FPGA/software/sss/simple_socket_server.c:359-368 | a first piece of 1499 bytes ends the loop in an overrun of the receive buffer, whatever is in it |
| SocketServer.ShortPieces | FPGA/software/sss/simple_socket_server.c:359-368 | lines of fewer than n bytes in pieces of at most m never leave n + m bytes in the buffer |
| SocketServer.ShortRepliesFit | FPGA/software/sss/simple_socket_server.c:293-299 | any fewer than 25 bytes in a row get a reply that fits |
| SocketServer.CommandsCount | FPGA/software/sss/simple_socket_server.c:289-307 | in literal bytes: a letter other than Q is posted as often as the client sends it small or large, every other printable character as often as it is sent, and small letters, quits and the rest never |
| SocketServer.CommandBytes | FPGA/software/sss/simple_socket_server.c:287-300 | the bytes that are commands are those with codes 32 to 126 other than q and Q, and those two are the ones that quit |
| Led.EveryRunShowsTheLeds | FPGA/software/sss/led.c:94-200 | on every interleaving of the two LED tasks and the poster: the semaphore is in exactly one place, so the show never updates while switched off; commands are carried out in the order accepted with at most thirty queued and one in hand; each LED is the parity of its toggles carried out; the register shows the flags |
| Led.RegisterBits | FPGA/software/sss/led.c:147-170 | the PIO register bit by bit, in literals: bit n is set exactly when the command with the digit n has been carried out an odd number of times, and the upper byte is clear |
| Led.ManagerFinishes | FPGA/software/sss/led.c:134-200 | left to itself after any run the management task soon has nothing more to do, or waits for the show: four statements for each command queued and three for the one in hand are enough |
| Led.EveryFourthTurnUpdates | FPGA/software/sss/led.c:99-122 | on every interleaving every fourth turn in which the show does not wait updates the display |
| Led.ToggleFlipsOne | FPGA/software/sss/led.c:61-84 | a toggle flips its own LED and no other |
| Led.StepKeepsSemaphore | FPGA/software/sss/led.c:110-120 | each statement of either task keeps semaphore count plus holders at one |
| Led.StepKeepsPipeline | FPGA/software/sss/led.c:147-198 | each statement keeps accepted equal to carried out, in hand and queued, in order |
| LedTasks.Board.LedBitToggle | FPGA/software/sss/led.c:61-84 | led_bit_toggle in place flips one flag and writes the flags to the PIO |
| LedTasks.Board.ManagementTask | FPGA/software/sss/led.c:134-200 | the management loop updating the kernel objects in place is its transition |
| LedTasks.Board.LightshowTask | FPGA/software/sss/led.c:94-123 | likewise for the show |
| LedTasks.Board.QPost | FPGA/software/sss/simple_socket_server.c:303-305 | OSQPost fails exactly when thirty commands wait |
| LedTasks.Run | FPGA/software/sss/led.c:94-200 | the board after any run from start-up |
| CommandPipeline.BytesDecideTheLeds | FPGA/software/sss/simple_socket_server.c:287-308 | end to end under the priorities, for a client that sends no s or S: whenever the management task has nothing left to do, LED i is lit exactly when the byte of digit i was sent an odd number of times, and the show is on |
| CommandPipeline.TheLedsFollow | FPGA/software/sss/led.c:134-200 | and 123 statements of the management task after any such run bring that moment about |
| CommandPipeline.AcceptedBytesDecide | FPGA/software/sss/simple_socket_server.c:287-308 | for any client and any interleaving: with no post finding thirty queued and everything carried out, each LED is decided by the parity of its digit among the bytes sent, and the show by that of s and S together |
| CommandPipeline.AllAcceptedIff | FPGA/software/sss/simple_socket_server.c:303-305 | on every run the commands accepted are those posted, in order, exactly when each post finds fewer than thirty queued |
| CommandPipeline.NoShowNoRefusal | FPGA/software/sss/simple_socket_server.h:94-96 | under the priorities nothing is refused before the first show command |
| CommandPipeline.ThirtyAlwaysFit | FPGA/software/sss/simple_socket_server.c:56-57 | up to thirty posts are accepted whatever the LED tasks do |
| Led.RefusedOnlyBehindTheShow | FPGA/software/sss/led.c:188-193 | under the priorities a post is refused only while the management task waits for the show to let go of its semaphore, with thirty commands queued behind the show command in its hand |
| CommandPipeline.LineIsCutShort | FPGA/software/sss/simple_socket_server.c:303-305 | and that does happen under the priorities: a line whose S finds the show at work loses its thirty-first further command |

## Left out

- Device registers, SGDMA and MAC set-up, PHY negotiation and cache remapping: hardware access; only "armed on a pbuf" and "frame completed" remain.
- The FreeRTOS kernel, MicroC/OS-II, NicheStack and lwIP themselves: abstract steps with the assumptions above; port.c and the assembly are not part of this model.
- Blocked-task wake-up inside the kernel's event lists beyond one mutex or one queue, and tick-accurate timing of delays: a delay or a block time may end at any moment.
- SemTest.RunDemo: the check counters are counted modulo 2^16; a task that fails to take the semaphore is back at the take, whether it polled or blocked.
- The running counters `xPollingProducerCount` and `xPollingConsumerCount` of PollQ.c and the `...StillRunning` functions: monitors read by another task.
- The queue half of GenQTest.c: one task sends to the front and back of its own queue, peeks and receives, and compares with constants; without a second task there is no interleaving, and each check follows from the queue operation before it.
- The second test of dynamic.c: a sender that sleeps between values and a receiver that spins, both making non-blocking calls on a one-slot queue with the scheduler locked; the order of values is the one proved in BlockQ, and nested locking of the scheduler is not part of this model.
- Liveness of the blocking socket calls: a closed peer, a connection that never sends a newline, and a pending second client make the server wait or spin, and only safety and the progress stated above are proved.
- SocketServer.SSSConn.HandleReceive: after an overrun of either buffer nothing more is claimed, since the C program's behaviour is then undefined; passes of the endless loop are counted by a parameter.
- TxChain.Transmitter.RawSend: assumes unaligned pieces of at most 1560 bytes, the size of the bounce buffer, which the C code does not check.
- Httpd.StepKeeps: one connection; several connections share only the listening socket and the allocator, whose answers are open. Pbuf and control-block memory are not modelled.
- The contents of the files in fsdata.c, and `strcmp` byte by byte: names are compared as strings.
- The menu text, console prints and error messages of the socket server, and the register tests: output only.
- alt_error_handler.c: prints a message and may delete the calling task, whose failed deletion it reports by calling itself.
- countsem.c, QPeek.c, blocktim.c, death.c, integer.c: a counting semaphore counted up and down, peeking by priority, block times in ticks, task creation and deletion, and arithmetic under preemption; each needs a further kernel object for a result of the kind proved here.
