# A verified model of a CAN FD to TSN gateway on FreeRTOS

The repository is a gateway that packs CAN FD frames into Ethernet containers, running on
FreeRTOS V10.4.6. This project models the stateful and concurrent core of both in Dafny and
proves what it is for: that no interleaving loses a wake-up, a sleeping task, a timer callback,
a byte, a message, a frame or a priority.

Verify everything with `dafny verify dfyconfig.toml`.

## What is modelled, and how

The configuration is the one of `generate/include/FreeRTOSConfig.h`: 32-bit ticks, preemption
and time slicing, mutexes, software timers, generic task selection, eight priorities, queue sets
and tickless idle off. A failing `configASSERT` stops the system.

Everything that wraps carries an unbounded count beside it (`Now`, `due`, `written`), and
everything circular a sequence. Protocols are step machines: a state, the events enabled in it,
and a function that applies one; `IsRun` is any sequence of enabled events, so that a lemma over
`IsRun` speaks of every interleaving. Loops and in-place updates are methods of classes, proved
equal to the function that the lemmas are about or kept within an invariant.

| file | part of the system |
|---|---|
| `QueueWaiting`, `QueueCalls` | blocking and the lock counts of a queue, tasks and interrupts interleaved |
| `QueueRing` | the ring storage of a queue |
| `CursorList`, `KernelList` | the kernel list as a sequence with a cursor, and on the heap |
| `ReadyLists` | ready lists and the choice of the task to run |
| `DelayedTasks`, `TickRuns`, `TickCode` | delayed lists, the tick, suspension of the scheduler |
| `Preemption`, `Wakeups` | when a switch is asked for, and what becomes of events |
| `Timeouts` | time-out bookkeeping of blocking calls |
| `Inheritance`, `InheritanceCauses` | mutexes and priority inheritance, any number of tasks and mutexes |
| `SoftwareTimers` | the timer service task |
| `RingIndex`, `StreamFrames`, `StreamProtocol`, `StreamRuns`, `StreamCode` | stream and message buffers |
| `EventGroups` | event groups and rendezvous |
| `GateSchedule`, `ContainerCodec` | gate control list, container format |
| `Aggregation`, `Gateway` | the aggregation task as a function of its inputs, and its code |
| `Shared`, `Modular` | what several parts use, facts about remainders |

Clocks, the CAN queue, the Ethernet driver, the scheduler's choice of who runs next and the
moment at which an interrupt arrives are inputs, and the results hold for all of them.

## Where the code does not do what it says

- `FreeRTOS/Source/queue.c:1578-1586` asserts that a task that is out of time and finds the
  mutex taken has caused no inheritance. A task that timed out with inheritance, saw the mutex
  free and was overtaken before its retry breaks that assertion; `Inheritance.AssertionCanFail`
  gives a run and `Inheritance.AssertionFailsExactlyWhen` proves that nothing else breaks it; a
  task that waits without a time limit never does (`Inheritance.NoTimeOutNoFailure`).
- `FreeRTOS/Source/list.c:98-100` says that an item inserted with `vListInsertEnd` is the last
  to be returned by `listGET_OWNER_OF_NEXT_ENTRY`. The item under `pxIndex` comes after it;
  `CursorList.InsertedComesUpLast` gives the exact place.
- The count byte of a container wraps when more than 255 short PDUs fit into it. Three data
  bytes per PDU are exactly what it takes to rule that out
  (`ContainerCodec.AlwaysDecodesExactlyWhen`), and shorter frames make the task itself send such
  a container (`Aggregation.CountByteWraps`).
- The task asks gate 0 whatever FIFO a container goes out on. With the program's own mapping,
  which has class 0 only, that is the right gate (`Aggregation.ProgramAsksItsOwnGate`). With a
  mapping that has a class from 3 up it can be the wrong one, as
  `Aggregation.OtherMappingMeetsShutGate` shows for a class 3 frame;
  `Aggregation.OwnGateExactlyWhen` says when the FIFO used is open.
- Resetting a queue that tasks are blocked on wakes one sender only
  (`QueueWaiting.ResetKeepsExactlyWhen`, `QueueWaiting.ResetStrandsSenders`).
- A time-out check made more than one turn of the tick counter after its stamp can miss that
  the time is up; `Timeouts.CheckIsRightExactlyWhen` says for which gaps it does not.

## Model

| member | source | states |
|---|---|---|
| `QueueWaiting.NoWakeUpIsLost` | FreeRTOS/Source/queue.c:805-2381 | in every interleaving of sends, receives, peeks, interrupts, locking and unlocking: while a receiver is listed, the messages are at most the woken receivers that have not run plus the counted events, and the same for senders and free slots |
| `QueueWaiting.BlockedOnlyWithReason` | FreeRTOS/Source/queue.c:1352-1492 | with nobody woken and the lock open, a listed receiver means an empty queue, a listed sender a full one, and both lists are never occupied together |
| `QueueWaiting.StepKeeps` | FreeRTOS/Source/queue.c:805-1957 | every single step of a task or an interrupt keeps the accounting invariant |
| `QueueWaiting.IsrSendKeeps` | FreeRTOS/Source/queue.c:1017-1181 | a send from an interrupt keeps it, with the lock open or shut |
| `QueueWaiting.IsrReceiveKeeps` | FreeRTOS/Source/queue.c:1865-1957 | so does a receive from an interrupt |
| `QueueWaiting.WakeReceiversKeeps` | FreeRTOS/Source/queue.c:2264-2381 | replaying n counted sends at unlock keeps it |
| `QueueWaiting.WakeSendersKeeps` | FreeRTOS/Source/queue.c:2264-2381 | so does replaying n counted receives |
| `QueueWaiting.LockKeeps` | FreeRTOS/Source/queue.c:251-263 | so does locking, whatever the counts were |
| `QueueWaiting.QueueLock.Unlock` | FreeRTOS/Source/queue.c:2264-2381 | the two loops of prvUnlockQueue do exactly that replay and leave both counts unlocked |
| `QueueWaiting.ResetKeepsExactlyWhen` | FreeRTOS/Source/queue.c:266-310 | a reset of a live queue keeps the accounting if and only if at most one sender is listed or one wake-up covers the free slots |
| `QueueWaiting.ResetStrandsSenders` | FreeRTOS/Source/queue.c:288-305 | for every length from 2 and every number of senders from 2, a run after which a reset leaves the queue empty with all but one of the senders asleep |
| `QueueCalls.CountIsConserved` | FreeRTOS/Source/queue.c:805-1957 | in every run, the messages in the queue are the successful sends that add one less the successful receives |
| `QueueCalls.CallEndsExactlyWhen` | FreeRTOS/Source/queue.c:805-1860 | in every run, a call ends exactly in a check that succeeds or may not wait, when a sender's time is up, or when a reader's is and its last look finds nothing |
| `QueueCalls.BlocksExactlyWhen` | FreeRTOS/Source/queue.c:969-1012 | with the queue locked, a task gives up exactly when its time is up, and otherwise blocks exactly when its operation is impossible |
| `QueueCalls.WakesExactlyOne` | FreeRTOS/Source/queue.c:805-1957 | in every run, a check or an interrupt wakes the first task of a list exactly when it puts in, leaves or takes out a message with the lock open, no other task, and uses up no wake-up but the checking task's |
| `QueueCalls.ReplayWakesReceivers` | FreeRTOS/Source/queue.c:2264-2381 | unlocking wakes as many of the first receivers as sends were counted, or all there are |
| `QueueCalls.ReplayWakesSenders` | FreeRTOS/Source/queue.c:2264-2381 | and the same for senders and counted receives |
| `QueueRing.Queue.PerformAll` | FreeRTOS/Source/queue.c:2160-2261 | any sequence of operations on the ring gives the answers and the contents of a bounded double-ended queue |
| `QueueRing.Queue.GenericSend` | FreeRTOS/Source/queue.c:834-842 | send to back appends, to front prepends, overwrite replaces, and a full queue refuses |
| `QueueRing.Queue.QueueReceive` | FreeRTOS/Source/queue.c:1352-1413 | receive removes the first item, or none from an empty queue |
| `QueueRing.Queue.QueuePeek` | FreeRTOS/Source/queue.c:1744-1760 | peek returns the first item and changes nothing |
| `QueueRing.Queue.CopyDataToQueue` | FreeRTOS/Source/queue.c:2160-2240 | the item goes to the place its position asks for, and the ring invariant is kept |
| `QueueRing.Queue.CopyDataFromQueue` | FreeRTOS/Source/queue.c:2243-2261 | the read slot moves on by one, round the ring, to the first item |
| `QueueRing.Queue.constructor` | FreeRTOS/Source/queue.c:281-284 | a reset queue is an empty queue of its length |
| `QueueRing.WriteSlot` | FreeRTOS/Source/queue.c:2188-2201 | pcWriteTo is always uxMessagesWaiting slots behind the next slot to read, modulo the length |
| `QueueRing.NeverOverfull` | FreeRTOS/Source/queue.c:834-842 | no sequence of operations makes the queue exceed its length |
| `CursorList.InsertedComesUpLast` | FreeRTOS/Source/list.c:87-114 | after how many steps of the cursor an inserted item comes up: after all others, except the one under pxIndex |
| `CursorList.InsertPositionSplits` | FreeRTOS/Source/list.c:137-173 | in an ascending list, everything before the insertion point is not greater and everything from it on is greater |
| `KernelList.List.constructor` | FreeRTOS/Source/list.c:50-72 | an initialised list is an empty ring |
| `KernelList.List.InsertAtIndex` | FreeRTOS/Source/list.c:87-114 | ring, back links, container, count and pxIndex stay consistent, the item goes in front of the cursor, and no item value changes |
| `KernelList.List.InsertInOrder` | FreeRTOS/Source/list.c:117-185 | for every value, the largest included, the insertion ends, keeps the ring consistent, puts the item behind all that are not greater, changes no item value, and keeps an ascending list ascending |
| `KernelList.List.FindPlace` | FreeRTOS/Source/list.c:168-172 | the search loop ends at the first node whose successor is greater |
| `KernelList.List.Remove` | FreeRTOS/Source/list.c:188-214 | the item leaves the ring and its value the values, pxIndex stays on a live node or the end marker, and the count left is returned |
| `KernelList.List.GetNextEntry` | FreeRTOS/Source/include/list.h:281-292 | pxIndex moves on by one item, past the end marker |
| `KernelList.InsertedInOrder` | FreeRTOS/Source/list.c:129-136 | where vListInsert puts a value: behind exactly the values that are not greater, so that equal values stay in order of arrival |
| `KernelList.DeletedInOrder` | FreeRTOS/Source/list.c:188-214 | taking an item out keeps an ascending list ascending |
| `ReadyLists.SwitchPicksHighest` | FreeRTOS/Source/tasks.c:136-151 | with any task ready the downward scan ends, and picks a ready task of the highest ready priority |
| `ReadyLists.EverySwitchPicksHighest` | FreeRTOS/Source/tasks.c:3021-3094 | so does every context switch of every run of readying, blocking, changing priorities and switching |
| `ReadyLists.EqualShares` | FreeRTOS/Source/tasks.c:136-151 | with k tasks of the highest priority, any k switches in a row run each exactly once |
| `ReadyLists.PicksGoRound` | FreeRTOS/Source/tasks.c:147-150 | the j-th switch runs the task j places on from the cursor, round the list |
| `ReadyLists.AddReadyKeeps` | FreeRTOS/Source/tasks.c:221-225 | adding a task keeps each list to one priority and the recorded top above every non-empty list |
| `ReadyLists.ReprioritiseKeeps` | FreeRTOS/Source/tasks.c:1550-1709 | so does moving a task to another priority |
| `ReadyLists.Scheduler.SelectHighestPriorityTask` | FreeRTOS/Source/tasks.c:136-151 | the scan loop computes that choice |
| `DelayedTasks.TickIsExact` | FreeRTOS/Source/tasks.c:2736-2846 | one tick readies exactly the tasks whose unbounded wake time it is and leaves all other sleepers alone, also across the wrap |
| `DelayedTasks.TickManyIsExact` | FreeRTOS/Source/tasks.c:2736-2846 | over any number of ticks a sleeper wakes at its time, neither before nor after |
| `DelayedTasks.DelayedListEmptyAtSwitch` | FreeRTOS/Source/tasks.c:201-213 | when the count wraps, the current delayed list is empty, as taskSWITCH_DELAYED_LISTS asserts |
| `DelayedTasks.BlockSleeper` | FreeRTOS/Source/tasks.c:5310-5381 | blocking for n ticks adds one sleeper, due at the current unbounded tick plus n, on whichever list |
| `DelayedTasks.UnblockSleeper` | FreeRTOS/Source/tasks.c:3183-3248 | an event takes its task out of the sleepers and nobody else |
| `DelayedTasks.DeferredTicksAreTicks` | FreeRTOS/Source/tasks.c:2220-2329 | suspending, n ticks and resuming leaves the kernel that n immediate ticks leave, with no pended tick, and yields exactly when one of them would have |
| `TickRuns.WakesExactlyOnTime` | FreeRTOS/Source/tasks.c:5310-5381 | in every run, a task blocking at T for n ticks, with no event meant for it, sleeps exactly while the count is below T + n and is ready once it is not |
| `TickRuns.NextUnblockIsNotLate` | FreeRTOS/Source/tasks.c:4006-4024 | in every reachable state xNextTaskUnblockTime is not after the first wake time |
| `TickRuns.SwapsAnEmptyList` | FreeRTOS/Source/tasks.c:201-213 | in every run, every swap made by a tick interrupt finds the current delayed list empty |
| `TickRuns.ResumeSwapsAnEmptyList` | FreeRTOS/Source/tasks.c:2220-2329 | and so does every swap made by a pended tick while the scheduler is resumed |
| `TickRuns.StepKeeps` | FreeRTOS/Source/tasks.c:2136-2906 | every event keeps the sleepers, the ready lists and the pending list consistent |
| `Preemption.TickAsksExactlyWhen` | FreeRTOS/Source/tasks.c:2736-2906 | a processed tick asks for a switch if and only if a yield is pending, a task whose time it is is at or above the running one, or two ready tasks share the running one's priority |
| `Preemption.ResumeAsksExactlyWhen` | FreeRTOS/Source/tasks.c:2220-2329 | xTaskResumeAll reports a yield if and only if one was pending, a task whose event came meanwhile is at or above the running one, or a pended tick asks for it |
| `Preemption.PreemptionIsAskedFor` | FreeRTOS/Source/tasks.c:2220-3296 | in every run, no tick, event, suspension, resumption or switch leaves a ready task above the running one without a switch having been asked for |
| `Wakeups.NoEventIsLost` | FreeRTOS/Source/tasks.c:3183-3296 | in every run, from an event meant for a task until it blocks again, the task is ready, or pending while the scheduler is suspended |
| `Wakeups.EventReadies` | FreeRTOS/Source/tasks.c:3183-3296 | an event readies its task or appends it to the pending list, and pends a yield exactly when the task is above the running one or one was pending |
| `Wakeups.TimeNeverWakes` | FreeRTOS/Source/tasks.c:5310-5381 | in every run, a task that blocks without a time limit is not made ready by time |
| `TickCode.KernelObject.IncrementTick` | FreeRTOS/Source/tasks.c:2736-2906 | the code of xTaskIncrementTick computes one tick and the answer that TickAsksExactlyWhen characterises |
| `TickCode.KernelObject.UnblockExpired` | FreeRTOS/Source/tasks.c:2763-2846 | its loop readies the due tasks and resets the next unblock time |
| `TickCode.KernelObject.ResumeScheduler` | FreeRTOS/Source/tasks.c:2220-2329 | the loops of xTaskResumeAll ready the pending tasks and process the pended ticks |
| `Timeouts.CheckIsExact` | FreeRTOS/Source/tasks.c:3320-3382 | less than one turn after its stamp, a check reports expiry exactly when the elapsed ticks reach the wait, and otherwise leaves the rest |
| `Timeouts.WaitIsKept` | FreeRTOS/Source/tasks.c:3320-3382 | so does any sequence of checks, against the original wait and the total elapsed time |
| `Timeouts.CheckAfterAnyGap` | FreeRTOS/Source/tasks.c:3355-3379 | after a gap of any length, exactly when a check reports expiry |
| `Timeouts.CheckIsRightExactlyWhen` | FreeRTOS/Source/tasks.c:3355-3379 | its report is right if and only if the wait is not over, or the gap modulo 2^32 covers the wait, or the tick count has passed its old value with xNumOfOverflows changed |
| `Timeouts.LongGapCanBeMissed` | FreeRTOS/Source/tasks.c:3355-3379 | a gap of nearly two turns that is taken for a running wait |
| `Timeouts.WaitingCall.CheckForTimeOut` | FreeRTOS/Source/tasks.c:3320-3382 | the code of xTaskCheckForTimeOut computes that check |
| `Inheritance.HolderIsNeverBelow` | FreeRTOS/Source/tasks.c:4074-4160 | in every run, a holder of any mutex is at or above its base and every task listed on it, for any number of tasks and mutexes, also when the waiting tasks hold mutexes themselves |
| `Inheritance.HeldCountIsExact` | FreeRTOS/Source/tasks.c:4687-4697 | uxMutexesHeld is the number of mutexes naming the task as holder, and a task holding none is at its base priority |
| `Inheritance.LeaveIsExact` | FreeRTOS/Source/tasks.c:4244-4343 | after a timed-out waiter's disinherit step, the holder of one mutex is at exactly the greatest of its base and the remaining waiters; a holder of more is unchanged |
| `Inheritance.GiveRestores` | FreeRTOS/Source/tasks.c:4164-4237 | giving the last mutex restores the base priority, giving another keeps the inherited one, a highest waiter is woken and the others stay listed |
| `Inheritance.TakenFromNobodyAbove` | FreeRTOS/Source/queue.c:1543-1547 | whoever takes a free mutex is not below the tasks still waiting for it |
| `Inheritance.InheritFacts` | FreeRTOS/Source/tasks.c:4074-4160 | inheriting raises the holder to the caller if it is below and touches nobody else, and is reported exactly when the caller is above the holder's base |
| `Inheritance.HeadIsHighest` | FreeRTOS/Source/queue.c:2135-2155 | the priority read from the head of the wait list is the greatest of it |
| `Inheritance.StepKeeps` | FreeRTOS/Source/queue.c:1495-1705 | every step of taking, blocking, timing out, giving up and giving keeps the invariant |
| `Inheritance.AssertionFailsExactlyWhen` | FreeRTOS/Source/queue.c:1576-1586 | in every run, the assertion on xInheritanceOccurred fails exactly in a retry before which the caller, having caused inheritance, found the mutex free and another task then took it |
| `Inheritance.NoTimeOutNoFailure` | FreeRTOS/Source/queue.c:1576-1586 | in every run, a task that has never run out of time does not fail it |
| `Inheritance.OvertakenRetryFails` | FreeRTOS/Source/queue.c:1576-1586 | once overtaken like that, with the mutex still taken, the caller's next step fails it |
| `Inheritance.AssertionCanFail` | FreeRTOS/Source/queue.c:1576-1586 | a run of three tasks in which it fails |
| `InheritanceCauses.InheritedHasCause` | FreeRTOS/Source/tasks.c:4074-4343 | in every run, while a task holds one mutex only, it is at its base or a task of its priority, which knows that it caused inheritance, is in a call on the mutex; with no such call left it is at its base |
| `InheritanceCauses.BlockAnswers` | FreeRTOS/Source/tasks.c:4074-4160 | in every run, a task that blocks is told that inheritance occurred exactly when the holder's base is below it |
| `InheritanceCauses.NobodyIsForgotten` | FreeRTOS/Source/queue.c:1595-1705 | in every run, a task blocked on a mutex is on its wait list |
| `SoftwareTimers.TimerDaemon.Run` | FreeRTOS/Source/timers.c:563-596 | over any sequence of passes and commands: unless the tick count has wrapped, a pass blocks if and only if each running timer has called back, since its start, exactly once per expiry time up to now, and otherwise brings exactly one that was behind up to date; when the count has wrapped, an event first brings every timer to exactly its expiry times up to the end of the ended turn, and a pass goes no further; a timer just started is up to date at once and a command calls back no other in its turn; after every event no timer has called back early; no stopped timer calls back |
| `SoftwareTimers.TimerDaemon.PassUntilBlocked` | FreeRTOS/Source/timers.c:583-595 | at any time finitely many passes end in blocking, with every timer up to date; without a wrap they are one for each overdue timer and one more |
| `SoftwareTimers.TimerDaemon.ProcessTimerOrBlock` | FreeRTOS/Source/timers.c:599-658 | unless the count has wrapped, it blocks exactly when nothing is overdue, until the first expiry of the turn or else the end of the turn, and for ever only with no timer listed; otherwise it serves the head of the list; when the count has wrapped every timer is up to date as of the end of the ended turn |
| `SoftwareTimers.TimerDaemon.SampleTimeNow` | FreeRTOS/Source/timers.c:688-708 | the lists are switched exactly when the tick count has wrapped since the last sample, and then every timer is up to date as of the end of the ended turn |
| `SoftwareTimers.TimerDaemon.SwitchTimerLists` | FreeRTOS/Source/timers.c:903-925 | the switch ends with the old list empty, all expiries of the ended turn processed |
| `SoftwareTimers.TimerDaemon.WorkOffTurn` | FreeRTOS/Source/timers.c:912-920 | its loop ends and empties the current list |
| `SoftwareTimers.TimerDaemon.ProcessExpiredTimer` | FreeRTOS/Source/timers.c:536-560 | the timer at the head calls back and is up to date after it, and no other timer is touched |
| `SoftwareTimers.TimerDaemon.ReloadTimer` | FreeRTOS/Source/timers.c:517-533 | the loop ends, having called back once for each further expiry that is past, and lists the timer for the next |
| `SoftwareTimers.TimerDaemon.InsertTimerInActiveList` | FreeRTOS/Source/timers.c:711-752 | it reports the time as past exactly when it is, and otherwise lists the timer for the turn in which it is due |
| `SoftwareTimers.TimerDaemon.ProcessCommand` | FreeRTOS/Source/timers.c:755-900 | a start counts from its issue, a change of period from its handling, stop and delete end the timer |
| `SoftwareTimers.TimerDaemon.StartTimer` | FreeRTOS/Source/timers.c:816-845 | the timer counts from the issue of the command, and one that expired before it was handled is caught up with at once |
| `SoftwareTimers.TimerDaemon.ChangePeriod` | FreeRTOS/Source/timers.c:853-866 | the new period counts from now, and the next expiry is in the future |
| `SoftwareTimers.TimerDaemon.GetNextExpireTime` | FreeRTOS/Source/timers.c:661-685 | the head of the current list, or 0 when it is empty |
| `SoftwareTimers.ProcessNowIsExact` | FreeRTOS/Source/timers.c:721-749 | the tests on 32-bit values decide the question in unbounded time |
| `SoftwareTimers.CountIsExact` | FreeRTOS/Source/timers.c:517-533 | standing between two due times, the number of k >= 1 with start + k * period <= t is (t - start) / period |
| `SoftwareTimers.NothingOverdue` | FreeRTOS/Source/timers.c:622-637 | a timer with nothing overdue has called back as often as it should have, one-shot timers once |
| `SoftwareTimers.NothingEarly` | FreeRTOS/Source/timers.c:517-560 | a timer never has more callbacks behind it than expiry times |
| `SoftwareTimers.SomethingOverdue` | FreeRTOS/Source/timers.c:617-621 | a timer with something overdue has not |
| `RingIndex.BytesAndSpaces` | FreeRTOS/Source/stream_buffer.c:1231-1249 | bytes and spaces add up to the length less one |
| `RingIndex.SpacesAreExact` | FreeRTOS/Source/stream_buffer.c:497-527 | the size_t arithmetic gives the free space, if twice the length fits size_t |
| `RingIndex.CopyIndexIsExact` | FreeRTOS/Source/stream_buffer.c:1150-1170 | the two chunks put byte j exactly j places on, round the ring |
| `StreamRuns.ReceivedIsPrefix` | FreeRTOS/Source/stream_buffer.c:724-1017 | in every interleaving of index loads, bytes copied and index stores, the bytes received are a prefix of the bytes that the callers of xStreamBufferSend passed, each call cut to the room there was; with the sender at rest all of those are published |
| `StreamRuns.MessagesArriveInOrder` | FreeRTOS/Source/stream_buffer.c:724-1017 | in a message buffer, the messages received are the first ones of those that the callers passed and that had room: whole, unchanged, once and in order; with the sender at rest all of those are published |
| `StreamRuns.DecideAccepts` | FreeRTOS/Source/stream_buffer.c:724-764 | a send puts in a whole message exactly when it and its length fit the free bytes, and of a stream as many bytes as are free |
| `StreamRuns.SameTailIsNoChange` | FreeRTOS/Source/stream_buffer.c:505-513 | if xTail reads the same modulo the length, nothing was consumed meanwhile, so that the space added up is the space there is |
| `StreamRuns.AcceptedIsSent` | FreeRTOS/Source/stream_buffer.c:724-764 | in every run, what is published is what was accepted of the bytes passed, but for the send in hand |
| `StreamRuns.BeginFinds` | FreeRTOS/Source/stream_buffer.c:820-862 | a receive goes on exactly when a message is unread, or for a stream when a byte is, and is then after as many bytes as there are and as the caller has room for |
| `StreamRuns.MessageReceiveReturns` | FreeRTOS/Source/stream_buffer.c:968-1017 | a receive that has fetched a message returns the first one not yet received |
| `StreamRuns.StreamReceiveReturns` | FreeRTOS/Source/stream_buffer.c:968-1017 | a receive from a stream returns the next bytes, as many as were there when it looked and as the caller has room for, whatever the sender does meanwhile |
| `StreamRuns.SenderStaysClear` | FreeRTOS/Source/stream_buffer.c:1141-1184 | the sender never writes where a byte is that the receiver may still read |
| `StreamRuns.ReceiverStaysClear` | FreeRTOS/Source/stream_buffer.c:1187-1228 | the receiver never reads where no published byte is |
| `StreamRuns.AtRest` | FreeRTOS/Source/stream_buffer.c:497-527 | in every reachable state, bytes available and spaces available add up to the length less one |
| `StreamRuns.ReportsNextLength` | FreeRTOS/Source/stream_buffer.c:871-908 | the reported length is that of the first unread message, and reporting it changes nothing |
| `StreamRuns.TooSmallChangesNothing` | FreeRTOS/Source/stream_buffer.c:986-999 | a receive with too small a buffer changes nothing, any other fetches the whole message |
| `StreamRuns.EmptySendPublishesNothing` | FreeRTOS/Source/stream_buffer.c:724-764 | in every interleaving, from a call to send no bytes until the sender's next call, xHead and the published bytes and messages stay as they were |
| `StreamProtocol.DecideKeeps` | FreeRTOS/Source/stream_buffer.c:508-526 | the space the sender measured is there whatever the receiver has done since |
| `StreamProtocol.StepKeeps` | FreeRTOS/Source/stream_buffer.c:497-1249 | every step of either side keeps the invariant |
| `StreamCode.StreamBuffer.WriteBytes` | FreeRTOS/Source/stream_buffer.c:1141-1184 | the bytes go to consecutive places round the ring, and no place before them is touched |
| `StreamCode.StreamBuffer.ReadBytes` | FreeRTOS/Source/stream_buffer.c:1187-1228 | the bytes come from consecutive places round the ring |
| `StreamCode.StreamBuffer.WriteMessage` | FreeRTOS/Source/stream_buffer.c:724-764 | a message is added whole with its length or not at all; a stream takes what fits |
| `StreamCode.StreamBuffer.Send` | FreeRTOS/Source/stream_buffer.c:673-721 | the contents grow by exactly what is accepted: a message with its length if both fit, of a stream as much as there is room for |
| `StreamCode.StreamBuffer.Receive` | FreeRTOS/Source/stream_buffer.c:911-965 | the contents lose exactly what is returned, for a stream as many bytes as there are and as the caller has room for |
| `StreamCode.StreamBuffer.NextMessageLength` | FreeRTOS/Source/stream_buffer.c:871-908 | the length stored in front of the contents, or 0 |
| `StreamCode.StreamBuffer.Spaces` | FreeRTOS/Source/stream_buffer.c:497-527 | the length less one less the bytes held |
| `StreamCode.StreamBuffer.BytesAvailable` | FreeRTOS/Source/stream_buffer.c:1231-1249 | the number of bytes held |
| `StreamCode.FetchesFirstMessage` | FreeRTOS/Source/stream_buffer.c:968-1017 | the first message comes out whole, or not at all when the room is too small |
| `StreamCode.MessageRoundTrip` | FreeRTOS/Source/stream_buffer.c:968-1017 | messages put in come out again, whole, unchanged, once and in order |
| `EventGroups.AlwaysQuiescent` | FreeRTOS/Source/event_groups.c:317-470 | after every wait, set, clear or sync call of every run, no task on the wait list has its condition met |
| `EventGroups.WaitExactly` | FreeRTOS/Source/event_groups.c:317-405 | a wait clears the bits it waits for exactly when its condition is met and it was asked to, and lists the caller exactly when it is not met and it may block, with an item that stands for this call |
| `EventGroups.SyncExactly` | FreeRTOS/Source/event_groups.c:194-254 | a sync sets its bits, clears those it waits for exactly when all of them were among the old and new ones, and lists the caller exactly when not and it may block |
| `EventGroups.ClearExactly` | FreeRTOS/Source/event_groups.c:473-500 | a clear clears the given bits and does nothing else |
| `EventGroups.TimeOutExactly` | FreeRTOS/Source/event_groups.c:430-460 | a task that times out leaves the list with the terms it waited on, and nothing else changes |
| `EventGroups.LookAgainExactly` | FreeRTOS/Source/event_groups.c:427-460 | its last look clears the bits of a call it made exactly when they are met by now and it was asked to |
| `EventGroups.WaitersHaveCalled` | FreeRTOS/Source/event_groups.c:376-397 | in every run, what is kept of a waiting task is what it called for |
| `EventGroups.SetBitsExactly` | FreeRTOS/Source/event_groups.c:533-625 | setting bits releases exactly the waiters that old or set satisfies, with that value, and leaves it less the bits of released clear-on-exit waiters |
| `EventGroups.SetBitsIgnoresOrder` | FreeRTOS/Source/event_groups.c:560-620 | the order of the wait list does not matter |
| `EventGroups.EventGroup.SetBitsInPlace` | FreeRTOS/Source/event_groups.c:548-625 | the loop that walks the list while taking tasks off it computes exactly that |
| `EventGroups.PackRoundTrip` | FreeRTOS/Source/event_groups.c:376-397 | the bits and the two flags packed into an item value come back out of it |
| `EventGroups.SatisfiedMeansMet` | FreeRTOS/Source/event_groups.c:692-726 | the test on the item value is prvTestWaitCondition on what was packed |
| `EventGroups.SyncQuiet` | FreeRTOS/Source/event_groups.c:194-254 | a sync call leaves nobody satisfied, the caller included |
| `EventGroups.NobodyReleasedEarly` | FreeRTOS/Source/event_groups.c:194-314 | rendezvous of any number of tasks in any order: nobody is released before the last arrival |
| `EventGroups.LastReleasesAll` | FreeRTOS/Source/event_groups.c:194-314 | the last arrival finds all bits and releases every other task with a value containing them |
| `EventGroups.LastLeavesClear` | FreeRTOS/Source/event_groups.c:216-228 | and leaves the rendezvous bits clear, other bits as they were and nobody waiting |
| `GateSchedule.LocateFinds` | src/FlexCAN_SKKU.c:227-241 | a table that covers the cycle never reaches the fallback, and the slot found contains the phase |
| `GateSchedule.SlotIsUnique` | src/FlexCAN_SKKU.c:227-241 | no phase lies in two slots |
| `GateSchedule.GclLocate` | src/FlexCAN_SKKU.c:227-241 | the loop of gcl_locate computes that search, fallback included |
| `GateSchedule.OpenMeansTimeLeft` | src/FlexCAN_SKKU.c:243-272 | a gate is open if and only if it has open time left |
| `GateSchedule.OpenExactlyWhen` | src/FlexCAN_SKKU.c:243-258 | with a table that covers the cycle, a gate is open if and only if its bit is set in the slot of the moment and more than SLOT_MARGIN_NS is left of the slot |
| `GateSchedule.MirrorOpensWhen` | src/FlexCAN_SKKU.c:209-258 | the gates of the program are open from 0 to 0.9, from 1 to 4.9 and from 5 to 8.9 ms of each 10 ms |
| `GateSchedule.OpenUntil` | src/FlexCAN_SKKU.c:260-272 | an open gate stays open for exactly the time left, and is closed then |
| `GateSchedule.AtMostOneOpen` | src/FlexCAN_SKKU.c:243-258 | if no slot opens two gates, no two are ever open together |
| `GateSchedule.GclMirrorIsCoherent` | src/FlexCAN_SKKU.c:213-219 | the table of the program covers the cycle and opens one gate at a time |
| `ContainerCodec.RoundTripExactlyWhen` | src/FlexCAN_SKKU.c:520-551 | a container decodes to exactly the PDUs put into it if and only if there are fewer than 256 |
| `ContainerCodec.CountDoesNotWrap` | src/FlexCAN_SKKU.c:535-545 | within the length limit, at most 252 PDUs of three or more bytes fit, so that the count byte does not wrap |
| `ContainerCodec.ShortPdusWrap` | src/FlexCAN_SKKU.c:544-545 | 256 PDUs of at most two bytes fit, and then it does |
| `ContainerCodec.AlwaysDecodesExactlyWhen` | src/FlexCAN_SKKU.c:535-545 | every container of PDUs of at least m bytes decodes if and only if m is at least 3 |
| `Aggregation.NothingLostOrReordered` | src/FlexCAN_SKKU.c:491-641 | for any mapping, gate control list, frames, clock values and driver results, after any number of turns the closed containers, the pending one and the carried frame hold, in order and once each, the mapped frames dequeued |
| `Aggregation.ContainersAreRight` | src/FlexCAN_SKKU.c:592-617 | every closed container encodes its frames in at most 1518 bytes and goes out on the smallest TC_to_FIFO value over them |
| `Aggregation.ContainersDecodeExactlyWhen` | src/FlexCAN_SKKU.c:538-545 | a closed container decodes to the PDUs of its frames if and only if it holds fewer than 256 |
| `Aggregation.LongFramesDecode` | src/FlexCAN_SKKU.c:535-545 | if its frames have three or more data bytes, it holds at most 252 and decodes |
| `Aggregation.CountByteWraps` | src/FlexCAN_SKKU.c:544-545 | with the gate shut at the turns' clock values, whatever these are, mapped frames of at most two data bytes make the task close a container of 303, 379 or 505 frames that does not decode |
| `Aggregation.CarriedFits` | src/FlexCAN_SKKU.c:552-560 | a frame carried over always fits the next container, which is empty |
| `Aggregation.TurnCloses` | src/FlexCAN_SKKU.c:563-637 | a turn closes a container exactly when its frame does not fit or fills it or the gate is open, but never after an unmapped frame |
| `Aggregation.OutcomesAreAnswers` | src/FlexCAN_SKKU.c:592-634 | the containers counted as sent, failed and without a buffer are those closed in turns with these answers of the driver |
| `Aggregation.ClosedStays` | src/FlexCAN_SKKU.c:592-637 | containers once closed stay as they are |
| `Aggregation.OwnGateExactlyWhen` | src/FlexCAN_SKKU.c:578-594 | a container closed by gate 0 finds the gate of its own FIFO open exactly when the slot opens that one too, and with gate 0 always alone exactly when it goes out on FIFO 0 |
| `Aggregation.OtherMappingMeetsShutGate` | src/FlexCAN_SKKU.c:578-594 | with a mapping of class 3 and the gate control list of the program, a turn closes a container because gate 0 is open and hands it to FIFO 1, whose gate is shut |
| `Aggregation.ProgramAsksItsOwnGate` | src/FlexCAN_SKKU.c:128-133 | with the mapping of the program every container goes out on FIFO 0 |
| `Aggregation.TurnKeeps` | src/FlexCAN_SKKU.c:491-641 | every turn keeps conservation, the containers and that a frame is carried over only when none is pending |
| `Aggregation.LeastClassGivesLeastFifo` | src/FlexCAN_SKKU.c:455-464 | the FIFO of the least class is the least FIFO |
| `Aggregation.MapsByFirstEntry` | src/FlexCAN_SKKU.c:147-158 | an identifier has the PDU id and class of the first entry for it, and is unmapped without one |
| `Aggregation.ProgramMaps` | src/FlexCAN_SKKU.c:128-133 | the program maps the identifiers 1 to 4, to the PDUs 1001 to 1004 of class 0 |
| `Aggregation.ProgramBytes` | src/FlexCAN_SKKU.c:520-551 | the bytes of a container with one frame of the program |
| `Gateway.AggregationTask.Run` | src/FlexCAN_SKKU.c:491-641 | any number of turns of the code take, carry over and close exactly what the function of the inputs says, and from the start the three counters are, modulo 2^32, the closing turns by the driver's answers |
| `Gateway.AggregationTask.Turn` | src/FlexCAN_SKKU.c:491-641 | so does one turn, and a frame is taken exactly when none is carried over |
| `Gateway.AggregationTask.ProcessPdu` | src/FlexCAN_SKKU.c:510-561 | an unmapped frame is skipped, any other is appended, or carried over exactly when it does not fit |
| `Gateway.AggregationTask.AddEntry` | src/FlexCAN_SKKU.c:538-545 | the bytes written in place are the encoding with one PDU more |
| `Gateway.AggregationTask.DecideAndTransmit` | src/FlexCAN_SKKU.c:566-637 | a container is closed exactly when a frame is carried over, it is full, or the gate is open |
| `Gateway.AggregationTask.Transmit` | src/FlexCAN_SKKU.c:592-634 | closing records frames, bytes, FIFO and outcome, and counts it once |
| `Gateway.AggregationTask.NextPdu` | src/FlexCAN_SKKU.c:494-507 | the carried frame comes before the queue |
| `Gateway.AggregationTask.CountersAddUp` | src/FlexCAN_SKKU.c:620-629 | containersSent, ethTxErrors and ethBufferErrors add up to the number of containers closed, modulo 2^32 |
| `Gateway.GetPduId` | src/FlexCAN_SKKU.c:147-158 | the loop returns PDU id and class of the first entry for the identifier, or 0xFFFF and the caller's default without one, for any table of at most 255 entries |

## Left out

- Inheritance.HolderIsNeverBelow: the priority of a task inside a blocking call is fixed: a step that would raise or lower a task that waits is left out, so that nested inheritance, which the kernel does not provide, is not modelled; a task that takes a mutex is taken not to be below a task that a give has made ready, which is what the scheduler ensures; vTaskPrioritySet during a hold, aborted delays and recursive mutexes are not modelled.
- QueueWaiting.NoWakeUpIsLost: lock counts stay below their limit of 127, beyond which the program asserts; resets of a live queue are treated separately.
- QueueRing.Queue.CopyDataToQueue: items are copied as wholes, not byte by byte, and addresses are slot numbers.
- SoftwareTimers.TimerDaemon.Run: less than 2^32 ticks pass between two samples and between the issue of a command and its handling; vTimerSetReloadMode, pended function calls and the freeing of a deleted timer are not modelled.
- Gateway.GetPduId: a table of 256 entries or more, on which the uint8 index never reaches the end, is not modelled.
- StreamRuns.ReceivedIsPrefix: blocking and task notifications are not modelled, since they only decide when a side looks again; size_t has 32 bits and is stored least significant byte first.
- DelayedTasks.TickManyIsExact: xNumOfOverflows is not bounded.
- TickRuns.WakesExactlyOnTime: deletion, vTaskSuspend of single tasks and aborted delays are not modelled; an event for the task stands for every other way of waking it.
- EventGroups.AlwaysQuiescent: deletion of an event group is not modelled; a 32-bit word is the set of its bits.
- Queue sets, the queue registry, counting semaphores as such, static creation, and memory allocation.
- Tickless idle, task creation and deletion, notifications, run-time statistics, stack checks and the MPU wrappers.
- The port-optimised ready bitmap.
- Co-routines, which repeat the delayed-list scheme on a smaller scale.
- The CAN receive and transmit tasks, the 4 KB boundary check, the GSN window and TAS_GetTimeUntilNextOpen, which the aggregation task does not use.
- The Ethernet receive path and all register, pin and clock set-up.
