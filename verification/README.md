# Verified model of the ZeroVM run-time libraries

A Dafny model of four parts of the ZeroVM run-time (ZRT) and of the properties they are meant to
have. `dafny verify dfyconfig.toml` checks everything.

**The GNU Pth scheduler** (`libports/pth-2.0.7`).  `PQueue.dfy` holds the thread queue as it is: a
circular list in which only the head stores an absolute priority and every other thread the
distance to its predecessor.  It refines the plain sorted sequences of `PrioritySequence.dfy`.
`WakeSweep.dfy` is the walk that removes threads from the list it walks along, `EventRing.dfy` the
relinking of event rings, `EventManager.dfy` the two passes over waiting events.  `Scheduler.dfy`
gives every call and the scheduler loop as functions on states.  `ThreadQueues.dfy` has the five
queues threaded through shared control blocks, and `Pth.dfy` the library on top of them, proved to do
what those functions say (`ThreadNames.dfy` reads rings as queues of names).
`SchedulerInvariant.dfy` and `SchedulerRuns.dfy` say what holds on all runs, `EventDelivery.dfy` who
is woken by signals, broadcasts and semaphores, `EventFates.dfy` what becomes of every single event,
`JoinWaits.dfy` what a join gets when its wait is over, `ExitValues.dfy` that exit values arrive,
`SchedulerPromises.dfy` what each call promises, `TurnWakes.dfy` whom a whole turn wakes,
`DirectedYields.dfy` when a yield reaches the thread it names, and `BoundedWaiting.dfy` gives the
waiting bound that ageing yields.

**The MapReduce runtime** (`lib/mapreduce`, `lib/helpers`).  `NodeList.dfy` and `EachToOther.dfy`
are the all-to-all exchange without a manager; `Dividers.dfy`, `Load.dfy`, `Baskets.dfy`, `Seats.dfy`
and `KWayMerge.dfy` the distribution of sorted items; `BufferedIO.dfy` and `Wire.dfy` the packets and
their transport; `MapReduceRun.dfy` the way from sorted chunks through bytes on channels to what each
reducer hands to Reduce; `MapReduceJob.dfy` a whole job, from sampling through any run of the exchange
to the result.

**The descriptor tables** (`lib/fs`).  `Descriptors.dfy` tells open, close, dup and dup2 with a plain
scan for the lowest free slot (section 2.14 of POSIX.1-2017 System Interfaces);
`DescriptorTables.dfy` is the code with its search hints, proved to do the same.

**The heap** (`lib/memory`, `lib/helpers/bitarray.c`).  `BitArray.dfy` is the bitmap and its search,
`Heap.dfy` brk and anonymous mappings on values, `MemoryManager.dfy` the object.

Where an object or a loop is modelled in place, its contract equates the new state with a function of
the old one, and the properties are proved of that function.  Inputs from outside (which events have
occurred, what a channel delivers, which flags a call carries) are parameters.

## What the code does not promise

Some expected properties are false of the code.  Each is kept as it is, with an example and the exact
condition:

- Main's exit is delayed until it is the last thread, says `pth_lib.c`.  The first test of
  `pth_exit` runs while main is not in any queue, so it lets main go if and only if exactly one other
  thread is alive (`EarlyExit`, `ExitCallbackRunning`); run from the scheduler it is right
  (`ExitCallbackWaiting`).
- A thread named in `pth_yield` is guaranteed control at the next dispatching step, says the manual
  (`pth.pod`).  Favouring it happens before the caller goes back into the ready queue, threads are
  woken and new ones come in, so it runs next if and only if none of these outranks it
  (`YieldToReady`, `YieldToNew`, `YieldIgnoredExample`).
- An asynchronous cancel of a suspended thread fails with ESRCH but leaves the request set, and a
  failed abort leaves the thread detached as well (`CancelKeeps`, `AbortKeeps`, `SuspendedExample`).
- The item that opens a basket is not compared with that basket's divider, so items with equal hashes
  can reach two reducers, from one chunk or from two (`SplitKey`, `SplitOverChunks`).  Where an item
  goes is its seat (`InBasketIffSeat`).  Equal hashes of a chunk stay together if and only if each
  repeated hash can get home from the baskets before it (`TogetherIff`); over a job they meet if and
  only if seats agree (`MeetIffSeatsAgree`).  Every item is at the reducer whose range holds it if and
  only if no chunk skips a range (`PlacedRightIffNoGap`, `GroupedIffNoGap`), which is more than equal
  hashes need (`GapWithoutSplit`).
- A join of any thread whose wait is over can still fail with EIO: it does if and only if the dead
  queue is empty again, as after one death with two such joins (`AnyJoinEmpty`, `SecondJoinerLoses`).
- A histogram with step zero truncates the item count to 16 bits (`GetHistogram`, `ZeroStepExample`),
  and sampling does not end if and only if both the step and the buffer need more than 16 bits
  (`SamplingEnds`).
- The dividers bound the load up to each of them from below, and the load strictly below it and in the
  last block from above (`JobLoad`), but with equal hashes no other range has an upper bound
  (`EqualHashesExample`).
- `munmap` of an address inside a page starts at the page above it (`MunmapClears`).
- `buf_read` returns the number of bytes asked for although fewer arrived if and only if the data holds
  fewer and the call does not fail (`Read`, `ShortReadExample`).
- `buf_read` reports the end of the data when its buffer is full and unread and more is asked than it
  holds; before a failed read that takes a buffer of no bytes.  After a failed read, bytes already read
  become readable again if there were any (`Read`, `EmptyBufferExample`, `StaleExample`).
- Refusing to open a directory for writing comes after its handle has been taken, and the handle stays
  used (`OpenFailure`, `RefusedExample`).
- `munmap` walks towards lower addresses from the address it is given, so it undoes `mmap` if and only
  if the length is at most one page (`MunmapUndoesMmap`, `MunmapStrays`, `TwoPagesExample`); the header
  says the length is ignored, which it is not.

## Model

| member | source | states |
|---|---|---|
| BoundedWaiting.BoundedWait | libports/pth-2.0.7/pth_sched.c:189-379 | If every base priority is at most p and there are at most n live threads, a thread in the ready queue at absolute priority q runs within max(0, p+1-q)+n-1 turns of the scheduler, on every run without a favoured newcomer or directed yield and on which the thread is not taken out of the queue |
| BoundedWaiting.ServedWithinDistance | libports/pth-2.0.7/pth_sched.c:189-379 | The same bound from any point of a run, as a distance that every turn shortens |
| BoundedWaiting.RoundFair | libports/pth-2.0.7/pth_sched.c:343-379 | One turn either serves the thread or brings it strictly nearer, whoever returns, waits, dies, wakes up or is new |
| BoundedWaiting.CallsFair | libports/pth-2.0.7/pth_lib.c:469-579 | No permitted call of the running thread puts anybody in front of a thread that has aged above every base priority |
| BoundedWaiting.WakeIntoNotOvertaken | libports/pth-2.0.7/pth_sched.c:849-855 | Woken threads, though inserted one above their base, do not overtake a thread above p |
| BoundedWaiting.DrainNotOvertaken | libports/pth-2.0.7/pth_sched.c:194-202 | New threads inserted at the standard priority do not overtake it either |
| SchedulerRuns.ReachableGood | libports/pth-2.0.7/pth_sched.c:161-383 | In every state any run reaches from pth_init, each live thread is running or in exactly one of the five queues, the queue fits its state field, and no step ever needs a queue or an entry that is not there |
| SchedulerRuns.RunsKeep | libports/pth-2.0.7/pth_sched.c:161-383 | The same from any good state: the invariant holds along whole runs of calls and scheduler turns |
| SchedulerRuns.StepKeeps | libports/pth-2.0.7/pth_lib.c:321-579 | Each single call or turn keeps the invariant and never breaks |
| SchedulerRuns.RoundKeeps | libports/pth-2.0.7/pth_sched.c:189-379 | A whole turn (take back, poll, drain, dispatch) keeps the invariant and ends with a running thread or the abort of an idle system |
| SchedulerRuns.PassesKeep | libports/pth-2.0.7/pth_sched.c:419-862 | Any number of event manager passes keeps the invariant |
| SchedulerRuns.InitGood | libports/pth-2.0.7/pth_lib.c:59-136 | The invariant holds after initialisation |
| SchedulerRuns.EarlyExit | libports/pth-2.0.7/pth_lib.c:397-438 | A run on which main leaves at once although a spawned thread has not started: the delay of the main thread does not happen |
| SchedulerRuns.SuspendedExample | libports/pth-2.0.7/pth_cancel.c:55-131 | A suspended thread on which cancel and abort both fail and both leave their marks |
| SchedulerInvariant.ExitCallbackRunning | libports/pth-2.0.7/pth_lib.c:397-438 | Called directly by the running main thread the exit test says yes if and only if exactly one other thread is alive |
| SchedulerInvariant.ExitCallbackWaiting | libports/pth-2.0.7/pth_lib.c:397-421 | Called from the scheduler while main waits, it says yes if and only if all other threads are dead |
| SchedulerInvariant.SpawnKeeps | libports/pth-2.0.7/pth_lib.c:321-326 | A fresh thread enters the new queue as New; every other thread keeps its place and control block |
| SchedulerInvariant.FavourKeeps | libports/pth-2.0.7/pth_lib.c:499-518 | A directed yield reorders one queue: every thread is in the queue it was in and no control block changes |
| SchedulerInvariant.SuspendKeeps | libports/pth-2.0.7/pth_lib.c:534-556 | Suspending succeeds exactly for threads that are not running, not suspended and not dead, and puts the thread into the suspended queue with its state unchanged |
| SchedulerInvariant.ResumeDefined | libports/pth-2.0.7/pth_lib.c:559-579 | A suspended thread is new, ready or waiting, so resume never selects a missing queue |
| SchedulerInvariant.ResumeKeeps | libports/pth-2.0.7/pth_lib.c:559-579 | Resume succeeds exactly for suspended threads and leaves the control block alone |
| SchedulerInvariant.SuspendThenResume | libports/pth-2.0.7/pth_lib.c:534-579 | Resuming undoes suspending: every thread is in the queue it was in and no control block has changed (the priority of the resumed thread is the standard one) |
| SchedulerInvariant.CancelKeeps | libports/pth-2.0.7/pth_cancel.c:55-106 | Cancelling keeps the invariant; it reports ESRCH exactly for a suspended thread in asynchronous mode, which keeps the request flag |
| SchedulerInvariant.AbortKeeps | libports/pth-2.0.7/pth_cancel.c:109-131 | Abort succeeds exactly for threads that are neither running nor suspended, and then the thread is gone; a suspended one stays with ESRCH, detached and with the request set |
| SchedulerInvariant.JoinIsSafe | libports/pth-2.0.7/pth_lib.c:469-496 | A join that finds its thread dead finds it in the dead queue, whether named or any |
| SchedulerInvariant.DeadAreQueued | libports/pth-2.0.7/pth_sched.c:338-345 | Every dead thread is in the dead queue, and the dead queue holds only dead joinable threads |
| SchedulerInvariant.JoinKeeps | libports/pth-2.0.7/pth_lib.c:469-496 | Joining reaps exactly the joined thread and keeps the invariant |
| SchedulerInvariant.Whereabouts | libports/pth-2.0.7/pth_sched.c:338-365 | Where a live thread is, read off its state field |
| SchedulerInvariant.ReturnKeeps | libports/pth-2.0.7/pth_sched.c:338-366 | Taking back a thread that yields, waits or exits keeps the invariant |
| SchedulerInvariant.EventPassKeeps | libports/pth-2.0.7/pth_sched.c:691-856 | One event manager pass keeps the invariant |
| SchedulerInvariant.EventPassWakes | libports/pth-2.0.7/pth_sched.c:697-855 | Exactly the waiters with an event that is no longer pending, or with a cancel request, become ready; the others stay |
| SchedulerInvariant.DrainKeeps | libports/pth-2.0.7/pth_sched.c:194-202 | Making new threads ready keeps the invariant |
| SchedulerInvariant.DispatchKeeps | libports/pth-2.0.7/pth_sched.c:212-217 | The next thread comes off the ready queue; there is none if and only if no thread is new or ready |
| SchedulerInvariant.ThreadCountExact | libports/pth-2.0.7/pth_lib.c:168-181 | The thread count that join compares with one is the number of live control blocks |
| SchedulerPromises.StepsAreCalls | libports/pth-2.0.7/pth_lib.c:321-579 | A step of a run is the call of its name, so that what calls promise holds on runs |
| SchedulerPromises.SpawnMeaning | libports/pth-2.0.7/pth_lib.c:246-326 | A spawned thread has the attributes asked for, is new, without request, value or events, and stands in the new queue at its priority; everybody else is untouched |
| SchedulerPromises.FavourMeaning | libports/pth-2.0.7/pth_lib.c:499-518 | A directed yield works exactly on threads in the new or ready queue; the thread is then first of its queue and the others follow as they stood; otherwise EINVAL and no change |
| DirectedYields.YieldToReady | libports/pth-2.0.7/pth_lib.c:499-532 | After a directed yield to a ready thread it runs next if and only if neither the base priority of the caller, nor that of a thread woken meanwhile, nor a new thread puts somebody before it |
| DirectedYields.YieldToNew | libports/pth-2.0.7/pth_lib.c:499-532 | A new thread runs next whatever happens if new threads are favoured; otherwise if and only if it is the only one and nobody ready has at least the standard priority |
| DirectedYields.YieldIgnoredExample | libports/pth-2.0.7/pth_lib.c:499-532 | A caller of base priority 5 yields to the only ready thread and runs again itself |
| SchedulerPromises.SuspendMeaning | libports/pth-2.0.7/pth_lib.c:534-556 | EPERM for running and dead threads, ESRCH for suspended ones; else the only entry of the thread is in the suspended queue at the standard priority, and nobody else is touched |
| SchedulerPromises.ResumeMeaning | libports/pth-2.0.7/pth_lib.c:559-579 | EPERM for threads that are not suspended; else the only entry is in the queue of the thread's state at the standard priority |
| SchedulerPromises.CancelMeaning | libports/pth-2.0.7/pth_cancel.c:55-106 | Every error and every outcome of a cancel: request set only, dead with the value CANCELED in the dead queue, or gone; nobody else is touched |
| SchedulerPromises.CancelPointMeaning | libports/pth-2.0.7/pth_cancel.c:42-52 | The thread exits if and only if a request is there and cancellation is enabled, and then the request is taken back |
| SchedulerPromises.CancelStateMeaning | libports/pth-2.0.7/pth_cancel.c:30-39 | What the cancellation state set by a thread means for its next cancellation point and for a cancel by others |
| SchedulerPromises.SettingsMeaning | libports/pth-2.0.7/pth_lib.c:198-201 | The favour flag decides where the next new threads come in, changes to conditions and semaphores are there for the next pass, and neither touches a thread |
| SchedulerPromises.JoinMeaning | libports/pth-2.0.7/pth_lib.c:475-488 | EDEADLK if and only if a thread joins itself or nobody else is alive, EINVAL for detached threads, and a wait if and only if there is neither a refusal nor a dead thread to take |
| SchedulerPromises.JoinTakes | libports/pth-2.0.7/pth_lib.c:489-496 | A join takes the thread named, or the first of the dead queue, hands out its value and touches nobody else |
| SchedulerPromises.AbortMeaning | libports/pth-2.0.7/pth_cancel.c:109-131 | EINVAL for the caller; otherwise nobody but the thread is touched |
| SchedulerPromises.ReturnMeaning | libports/pth-2.0.7/pth_sched.c:338-366 | A thread that exits is dead with its value if joinable and gone if not; one that waits has all its events pending; one that yields is ready at its base priority; the other ready threads are one higher and nothing else changes |
| SchedulerPromises.PassMeaning | libports/pth-2.0.7/pth_sched.c:691-856 | A pass changes only events, states and queues of waiting threads; woken ones enter the ready queue one above their base priority, all other entries stay |
| SchedulerPromises.DrainFavoured | libports/pth-2.0.7/pth_sched.c:194-202 | Favoured new threads come before all ready ones, in their queue order |
| SchedulerPromises.DrainPlain | libports/pth-2.0.7/pth_sched.c:194-202 | Other new threads come behind all of at least the standard priority, the last of their queue first |
| SchedulerPromises.DispatchMeaning | libports/pth-2.0.7/pth_sched.c:194-217 | One of the highest priority among ready and new threads runs next, new threads are ready, nothing else changes |
| ExitValues.ExitValueArrives | libports/pth-2.0.7/pth_lib.c:450-496 | A joinable thread that exits with v is joined with v, before or after a wait and however long after, unless somebody else has taken it on the way |
| ExitValues.DetachedVanishes | libports/pth-2.0.7/pth_sched.c:338-345 | A detached thread that exits is gone after the turn |
| ExitValues.CancelValueArrives | libports/pth-2.0.7/pth_cancel.c:88-104 | A joinable thread cancelled asynchronously is joined with CANCELED, a detached one is gone |
| TurnWakes.DueWakes | libports/pth-2.0.7/pth_sched.c:189-379 | A waiting thread with an event that the first pass of a turn finds due is ready or running at the end of the turn |
| TurnWakes.ExitWakesJoiners | libports/pth-2.0.7/pth_sched.c:189-379 | The turn in which a joinable thread exits ends with everybody awake who waited for its end, or for any |
| Pth.Library.constructor | libports/pth-2.0.7/pth_lib.c:59-136 | Five empty rings, only the main thread, running, and new threads are favoured |
| Pth.Library.Spawn | libports/pth-2.0.7/pth_lib.c:321-326 | A fresh control block is linked into the ring of new threads; read as a state, the rings and blocks are those that spawn promises |
| Pth.Library.Favour | libports/pth-2.0.7/pth_lib.c:499-518 | The target is relinked to the front of its ring, or EINVAL; the rings read as the state that a directed yield promises |
| Pth.Library.Suspend | libports/pth-2.0.7/pth_lib.c:534-556 | One control block moves from its ring to that of the suspended, the other rings keep every link; state and error as promised |
| Pth.Library.Resume | libports/pth-2.0.7/pth_lib.c:559-579 | The way back; the queue is never missing because the invariant rules out a dead thread among the suspended |
| Pth.Library.Cancel | libports/pth-2.0.7/pth_cancel.c:55-106 | Unlinking and relinking, or freeing, of the control block in every branch gives the promised state and error |
| Pth.Library.Abort | libports/pth-2.0.7/pth_cancel.c:109-131 | Joined if dead, else detached and cancelled, on the rings |
| Pth.Library.CancelPoint | libports/pth-2.0.7/pth_cancel.c:42-52 | The request is taken back exactly when the thread has to exit |
| Pth.Library.Join | libports/pth-2.0.7/pth_lib.c:469-496 | The dead thread is found in its ring, unlinked and freed; state, value, error and whether a wait is needed, before and after the wait |
| Pth.Library.TakeBack | libports/pth-2.0.7/pth_sched.c:338-366 | The thread that gave up control is freed or linked into the ring its state names, and the ready ring ages by one increment |
| Pth.Library.DrainNew | libports/pth-2.0.7/pth_sched.c:194-202 | The loop that unlinks the tail of one ring and links it into another empties the first and gives the promised ready queue |
| Pth.Library.ManageEvents | libports/pth-2.0.7/pth_sched.c:419-856 | One pass over the ring of the waiting, which it changes while walking it, gives the promised state; every waiter is visited once |
| Pth.Library.Turn | libports/pth-2.0.7/pth_sched.c:189-379 | A whole turn on the five intrusive rings refines the turn of the state machine, the abort included |
| Pth.Library.Perform | libports/pth-2.0.7/pth_lib.c:321-579 | Any run of calls and turns on the rings ends with the rings in order, every thread where its state says, and the state that the run of the state machine gives; it stops early only where that run does |
| ThreadQueues.Queues.Enqueue | libports/pth-2.0.7/pth_pqueue.c:52-94 | Linking a free thread into one of five disjoint rings: that queue gains it in its place, the other four keep every entry, and the rings stay disjoint |
| ThreadQueues.Queues.Dequeue | libports/pth-2.0.7/pth_pqueue.c:128-162 | Unlinking from one ring, the other four untouched |
| ThreadQueues.Queues.EventLoops | libports/pth-2.0.7/pth_sched.c:440-856 | Both loops of the event manager on the rings: polling, sweeping, and everything else of every control block left alone |
| PQueues.PQueue.Insert | libports/pth-2.0.7/pth_pqueue.c:52-94 | On the ring of deltas, insertion is stable insertion into the descending sequence of absolute priorities |
| PQueues.PQueue.DelMax | libports/pth-2.0.7/pth_pqueue.c:97-125 | Takes the first entry; every other absolute priority stays |
| PQueues.PQueue.Delete | libports/pth-2.0.7/pth_pqueue.c:128-162 | Removes one entry and keeps the absolute priority of every other; nothing happens on an empty queue |
| PQueues.PQueue.Favorite | libports/pth-2.0.7/pth_pqueue.c:171-184 | The thread moves to the front; FALSE exactly on an empty queue |
| PQueues.PQueue.FavoritePrio | libports/pth-2.0.7/pth_pqueue.c:166-167 | The head plus one, or the maximum on an empty queue |
| PQueues.PQueue.IncreaseAll | libports/pth-2.0.7/pth_pqueue.c:187-196 | One increment at the head raises every absolute priority by one |
| PQueues.PQueue.Tail | libports/pth-2.0.7/pth_pqueue.c:211-218 | The last entry |
| PQueues.PQueue.WalkNext | libports/pth-2.0.7/pth_pqueue.c:232-236 | The successor, or none behind the last |
| PQueues.PQueue.WalkPrev | libports/pth-2.0.7/pth_pqueue.c:228-231 | The predecessor, or none before the first |
| PQueues.PQueue.Has | libports/pth-2.0.7/pth_pqueue.c:241-255 | Membership, by one walk around the ring that ends |
| PrioritySequence.InsertSorted | libports/pth-2.0.7/pth_pqueue.c:52-94 | Insertion keeps the order and adds exactly one entry |
| PrioritySequence.InsertStable | libports/pth-2.0.7/pth_pqueue.c:75-84 | The newcomer stands directly behind the last entry of at least its priority |
| PrioritySequence.DeleteFacts | libports/pth-2.0.7/pth_pqueue.c:128-162 | Deletion keeps order and distinctness and removes one thread |
| PrioritySequence.DeleteEntries | libports/pth-2.0.7/pth_pqueue.c:128-162 | Every other entry stays, with its priority |
| PrioritySequence.FavoriteInFront | libports/pth-2.0.7/pth_pqueue.c:171-184 | A favoured thread is first, one above the best of the others, which keep order and priority |
| PrioritySequence.IncreaseFacts | libports/pth-2.0.7/pth_pqueue.c:187-196 | Ageing reorders nobody |
| WakeSweep.Sweep | libports/pth-2.0.7/pth_sched.c:691-856 | The sweep decides who is woken from the events it has just cleaned and deletes from the ring while walking it, yet visits each waiter once in queue order; the stayers keep their order and the woken ones enter the ready ring one above their base |
| WakeSweep.MarkWaiting | libports/pth-2.0.7/pth_sched.c:440-596 | The first loop over the ring polls every event of every waiter once, in queue order |
| PrioritySequence.KeepFacts | libports/pth-2.0.7/pth_sched.c:849-850 | The waiting queue afterwards holds exactly the threads that were not woken, with their entries |
| PrioritySequence.WakeIntoFacts | libports/pth-2.0.7/pth_sched.c:849-852 | The ready queue afterwards holds the former entries and the woken threads, each one above its base priority, in order |
| EventManager.SignalMarksOne | libports/pth-2.0.7/pth_sched.c:540-551 | A plain signal releases exactly one waiter if somebody waits and it has not been handled, else none |
| EventManager.SignalMarksFirst | libports/pth-2.0.7/pth_sched.c:540-551 | The released waiter is the first in queue order |
| EventManager.BroadcastMarksAll | libports/pth-2.0.7/pth_sched.c:541-543 | A broadcast releases every waiter |
| EventManager.SilenceMarksNone | libports/pth-2.0.7/pth_sched.c:540-541 | Without a signal nobody is released |
| EventManager.SignalDelivered | libports/pth-2.0.7/pth_sched.c:539-551 | Over both passes a fresh signal with a waiter wakes exactly one and is consumed |
| EventManager.BroadcastDelivered | libports/pth-2.0.7/pth_sched.c:539-551 | Over both passes a broadcast leaves nobody waiting and is consumed |
| EventManager.CleanConsumes | libports/pth-2.0.7/pth_sched.c:813-823 | A signal is consumed if and only if one of its events has occurred |
| EventManager.SemaphoreBalance | libports/pth-2.0.7/pth_sched.c:553-561 | A semaphore loses exactly the sum of what was granted, never more than it had, and whoever still waits asks for more than is left |
| EventManager.MarkFrame | libports/pth-2.0.7/pth_sched.c:588-593 | Marking touches no event that already occurred, and only the status of the others |
| EventManager.CleanFrame | libports/pth-2.0.7/pth_sched.c:704-829 | The second pass takes back no occurrence and leaves semaphores alone |
| EventManager.CleanRing | libports/pth-2.0.7/pth_sched.c:697-829 | The second pass over one ring, and whether anything in it is no longer pending |
| EventManager.MarkRingsFlat | libports/pth-2.0.7/pth_sched.c:440-596 | Polling thread by thread is polling all events in queue order |
| EventManager.CleanRingsFlat | libports/pth-2.0.7/pth_sched.c:691-829 | So is the second pass |
| EventDelivery.SignalWakesOne | libports/pth-2.0.7/pth_sched.c:539-855 | Over a whole pass, a fresh plain signal on which somebody waits ends exactly one wait, the first in queue order; its thread is ready in the ready queue, and the signal is gone |
| EventDelivery.BroadcastWakesAll | libports/pth-2.0.7/pth_sched.c:539-855 | Over a whole pass, a broadcast ends every wait on it, all their threads are ready, and it is gone |
| EventDelivery.SemaphoreGrants | libports/pth-2.0.7/pth_sched.c:553-855 | Over a whole pass, a semaphore drops by exactly what was granted, whoever got it is ready, and whoever still waits asks for more than is left |
| EventFates.PassFate | libports/pth-2.0.7/pth_sched.c:440-829 | After a pass every event is as it was but for its status, which is what is due: outside events and dead threads as found, a signal to the first who waits, a broadcast to all, a semaphore to those who find enough left by the ones before them, descriptors with the status found |
| EventFates.WokenIffDue | libports/pth-2.0.7/pth_sched.c:691-855 | A waiting thread becomes ready if and only if one of its events is due or a cancel is requested; otherwise its control block and its entry are unchanged |
| EventFates.PolledDecides | libports/pth-2.0.7/pth_sched.c:535-592 | A timer, message port, mutex or function event of a waiting thread occurs if and only if it was found so, and then the thread is ready |
| EventFates.LateDecides | libports/pth-2.0.7/pth_sched.c:704-829 | A descriptor event gets the status found for it, and unless that is pending its thread is ready |
| EventFates.EndDecides | libports/pth-2.0.7/pth_sched.c:563-570 | A wait for the end of a thread ends if and only if that thread is in the dead queue, one for any if the dead queue is not empty |
| EventFates.ConditionAfter | libports/pth-2.0.7/pth_sched.c:539-823 | After a pass a condition is cleared if it was signalled and one of its events has occurred, and otherwise as it was |
| EventFates.SemaphoreAfter | libports/pth-2.0.7/pth_sched.c:553-561 | No semaphore comes or goes, and each loses exactly what it granted |
| JoinWaits.JoinWakes | libports/pth-2.0.7/pth_sched.c:563-570 | A pass ends the wait of a join exactly when its thread is in the dead queue, or any thread for a join of any; the dead queue stays as it is |
| JoinWaits.StepLies | libports/pth-2.0.7/pth_lib.c:469-496 | A dead thread stays in the dead queue with its value through every call and turn but a join or abort that takes it |
| JoinWaits.NamedJoinCompletes | libports/pth-2.0.7/pth_lib.c:489-496 | However long a named join woken by the end of its thread takes to run, it gets the value and frees the thread, unless somebody else has taken it on the way |
| JoinWaits.AnyJoinEmpty | libports/pth-2.0.7/pth_lib.c:489-493 | After its wait a join of any thread gets EIO if and only if the dead queue is empty |
| JoinWaits.SecondJoinerLoses | libports/pth-2.0.7/pth_lib.c:485-493 | One death wakes two joins of any thread, and the second to run gets EIO |
| EventRings.Concat | libports/pth-2.0.7/pth_event.c:311-341 | Joining disjoint rings gives one ring: the first event, the other rings in order, then the rest of the first ring |
| EventRings.Isolate | libports/pth-2.0.7/pth_event.c:344-359 | The event becomes a ring of its own, the others stay a ring in their order; a lone event is left alone |
| EventRings.Borrow | libports/pth-2.0.7/pth_event.c:311-359 | Concatenating a single event with a ring and isolating it again gives the ring back link for link |
| EventRings.ChainInto | libports/pth-2.0.7/pth_event.c:103-116 | Chain mode puts a fresh pending event at the end of the ring |
| EventRings.ResetAll | libports/pth-2.0.7/pth_event.c:420-426 | pth_wait makes every event of the ring pending |
| EventRings.CountNonPending | libports/pth-2.0.7/pth_event.c:442-451 | pth_wait returns the number of events that are no longer pending |
| EachToOther.StartEachToOther | lib/mapreduce/eachtoother_comm.c:31-50 | The trace of the two nested loops |
| EachToOther.ProgramShape | lib/mapreduce/eachtoother_comm.c:31-50 | A node at place k receives from all before it, then sends to all others in order, then receives from all behind it |
| EachToOther.Places | lib/mapreduce/eachtoother_comm.c:31-50 | Where two nodes of a list without repetition have to be in their loops for a message from one to the other |
| EachToOther.StepKeeps | lib/mapreduce/eachtoother_comm.c:31-50 | Every communication keeps: a message is in its channel exactly between sending and receipt, and is stored once at its sender's index |
| EachToOther.Progress | lib/mapreduce/eachtoother_comm.c:31-50 | No deadlock for any number of nodes, even if no channel can hold a message |
| EachToOther.RunsEnd | lib/mapreduce/eachtoother_comm.c:31-50 | Every run ends after at most n * 2(n-1) communications |
| EachToOther.StuckIsComplete | lib/mapreduce/eachtoother_comm.c:31-50 | A run that cannot go on has delivered to every node exactly one message of every other node and left all channels empty |
| NodeList.GetNodesListByType | lib/mapreduce/channels_conf.c:80-119 | The ascending list of the nodes of all read channels of that type if there are more of these than of write channels, else of all write channels; its length is the larger of the two numbers |
| NodeList.NodesAgree | lib/mapreduce/channels_conf.c:80-119 | Two ascending lists agree if their tables name the same nodes |
| NodeList.ClusterAgrees | lib/mapreduce/channels_conf.c:80-119 | All nodes whose tables name the same different ids work with one list, ascending and without repetition |
| NodeList.AscendingUnique | lib/mapreduce/channels_conf.c:105-106 | Equal ids have only one ascending arrangement |
| Dividers.GetHistogram | lib/mapreduce/map_reduce_lib.c:112-151 | Sorted samples of every step-th hash ending in the last one, for every input on which the call returns; the weight equals the number of items if and only if the step is positive or the buffer is shorter than 65536 |
| Dividers.SamplingEnds | lib/mapreduce/map_reduce_lib.c:126-135 | The sampling loop, which advances by a 16-bit number, ends if and only if the step or the number of items is below 65536 |
| Dividers.ZeroStepExample | lib/mapreduce/map_reduce_lib.c:121-125 | 65536 items sampled with step zero lose their count |
| Dividers.CalculateItemsCount | lib/mapreduce/map_reduce_lib.c:325-343 | The sum of the histogram weights |
| Dividers.TotalExact | lib/mapreduce/map_reduce_lib.c:325-343 | With exact histograms the computed total is the true number of items |
| Dividers.GetDividers | lib/mapreduce/map_reduce_lib.c:219-323 | One divider per reducer, non-decreasing, ending in the maximum hash, and fixed by the histograms |
| Dividers.BlocksBalanced | lib/mapreduce/map_reduce_lib.c:241-302 | Every block closed by a divider weighs at least the even share G and less than G plus the largest step |
| Load.LastBlockBounded | lib/mapreduce/map_reduce_lib.c:219-313 | The sample weight behind the last cut, which falls to the first reducer without a divider from the samples: at most what the other even shares leave when all dividers are emitted, less than one even share or nothing otherwise |
| Load.SamplesCount | lib/mapreduce/map_reduce_lib.c:112-151 | The weight of the samples up to a hash is at most the true number of items up to it, and short of it by less than one step |
| Load.SampledClose | lib/mapreduce/map_reduce_lib.c:112-151 | A histogram that keeps the count never claims more items up to a hash than there are, and at most one step too few |
| Load.DividersBound | lib/mapreduce/map_reduce_lib.c:219-323 | In items, for exact histograms: at least k+1 even shares lie at or below divider k, and at most the last block lies above the last divider from the samples |
| Load.DividersBoundAbove | lib/mapreduce/map_reduce_lib.c:219-323 | Strictly below divider k lie fewer than (k+1)(G+m) in sample weight, m being the largest step, and in items at most one step of each histogram more |
| Load.EqualHashesExample | lib/mapreduce/map_reduce_lib.c:252-305 | Two equal hashes for two reducers: both lie at or below the first divider, though the even share is one |
| Dividers.CutsAscend | lib/mapreduce/map_reduce_lib.c:252-305 | Dividers come out in merged order |
| Baskets.Distribute | lib/mapreduce/map_reduce_lib.c:676-765 | The loop writes at most one basket per divider and pads the rest with empty ones |
| Baskets.FillContiguous | lib/mapreduce/map_reduce_lib.c:703-751 | The written baskets follow one another without gap or overlap over the whole buffer |
| Baskets.DistributeConserves | lib/mapreduce/map_reduce_lib.c:676-765 | All baskets together hold exactly the items of the buffer |
| Baskets.FillBounds | lib/mapreduce/map_reduce_lib.c:703-751 | Every item of basket k > 0 is above divider k-1; every item but the one that opened a later basket is not above divider k |
| Baskets.SplitKey | lib/mapreduce/map_reduce_lib.c:749-752 | Two equal hashes of one buffer sent to two reducers: buffer 5, 5 and dividers 1, 2, 9 |
| Baskets.PlacedRightIffNoGap | lib/mapreduce/map_reduce_lib.c:703-752 | Every item is in the basket of the range its hash belongs to if and only if the buffer visits every reducer range between the first and that of its last item |
| Seats.InBasketIffSeat | lib/mapreduce/map_reduce_lib.c:703-752 | An item is in basket b if and only if b is its seat: its home, or one basket beyond the item before it if that is nearer |
| Seats.TogetherIff | lib/mapreduce/map_reduce_lib.c:703-752 | Equal hashes of one buffer stay together if and only if every hash that occurs more than once, first at place s, has home at most s+1 and at most s-i beyond the home of each earlier place i |
| Seats.GapWithoutSplit | lib/mapreduce/map_reduce_lib.c:749-752 | Buffer 5 with dividers 1, 2, 9 skips a range and yet splits nothing |
| Seats.SplitOverChunks | lib/mapreduce/map_reduce_lib.c:749-752 | Buffers 5 and 2, 5 send the hash 5 to two reducers although neither splits anything |
| KWayMerge.Search | lib/mapreduce/map_reduce_lib.c:963-986 | The last among the sources whose current item is least, or -1 if and only if all are consumed |
| KWayMerge.Merge | lib/mapreduce/map_reduce_lib.c:912-961 | A hash-sorted permutation of the union of any number of sorted buffers |
| KWayMerge.MergedMeaning | lib/mapreduce/map_reduce_lib.c:912-961 | The same of the merge as a function |
| KWayMerge.RemainingStep | lib/mapreduce/map_reduce_lib.c:938-958 | Each round consumes exactly one of the unconsumed items |
| BufferedIO.BufferedWriter.Flush | lib/helpers/buffered_io.c:43-49 | The held bytes reach this handle and no other |
| BufferedIO.BufferedWriter.Write | lib/helpers/buffered_io.c:51-64 | Whatever the sizes, the bytes follow those written before on this handle |
| BufferedIO.BufferedReader.Read | lib/helpers/buffered_io.c:70-103 | The requested bytes in order; fewer than the returned number if and only if the data is shorter; -1 if and only if more is asked than is buffered and the channel is at its end or the buffer is full, which before a failed read it never is; after -1 bytes already read are readable again if and only if there were any |
| BufferedIO.EmptyBufferExample | lib/helpers/buffered_io.c:85-98 | A buffer of no bytes reports the end although there is a byte |
| BufferedIO.ShortReadExample | lib/helpers/buffered_io.c:70-103 | Three bytes asked of a channel with two: the result is 3 and two bytes arrive |
| BufferedIO.StaleExample | lib/helpers/buffered_io.c:70-103 | After a failed read the byte 4 of 1, 2, 3, 4 is read twice |
| Wire.CalculateSendingDataSize | lib/mapreduce/map_reduce_lib.c:531-563 | The announced size |
| Wire.SizeExact | lib/mapreduce/map_reduce_lib.c:531-563 | The announced size is the number of bytes behind the size word |
| Wire.LayoutExample | lib/mapreduce/map_reduce_lib.c:565-614 | A packet byte by byte |
| Wire.InlineLayoutExample | lib/mapreduce/map_reduce_lib.c:470-495 | The same with an inline value |
| Wire.RoundTrip | lib/mapreduce/map_reduce_lib.c:470-528 | Decoding a packet gives the same flag, count and items and leaves what follows untouched |
| Wire.StreamRoundTrip | lib/mapreduce/map_reduce_lib.c:565-614 | The same for any sequence of packets on one channel |
| Wire.WriteItem | lib/mapreduce/map_reduce_lib.c:470-495 | Exactly the bytes of one item, and their number |
| Wire.WriteDataToReduce | lib/mapreduce/map_reduce_lib.c:565-614 | The packet reaches this handle whole, no other handle gets a byte, the shared buffer is empty again and the byte count matches |
| Wire.ReadItem | lib/mapreduce/map_reduce_lib.c:497-528 | The item written, and no byte behind it |
| Wire.RecvDataFromSingleMap | lib/mapreduce/map_reduce_lib.c:989-1040 | The packet written; the channel is left exactly behind it |
| MapReduceRun.MapSendToAllReducers | lib/mapreduce/map_reduce_lib.c:622-670 | Through one shared buffer each reducer gets exactly its own packet |
| MapReduceRun.MapNodeMain | lib/mapreduce/map_reduce_lib.c:857-904 | Over all chunks each reducer is sent one packet per chunk, only the last one flagged |
| MapReduceRun.ReceiveRound | lib/mapreduce/map_reduce_lib.c:1097-1124 | One round receives from every mapper still expected and asks for another round if and only if some mapper has not sent its flag |
| MapReduceRun.ReduceNodeMain | lib/mapreduce/map_reduce_lib.c:1063-1167 | The loop stops exactly when all mappers have sent the flag, having consumed each channel just up to it; Reduce gets exactly the received items, sorted |
| MapReduceRun.SpreadConserves | lib/mapreduce/map_reduce_lib.c:622-765 | Over all reducers, what is sent is exactly what the chunks hold |
| MapReduceRun.MapReduce | lib/mapreduce/map_reduce_lib.c:622-1167 | From sorted chunks and any dividers that rise to the greatest hash, without Combine: over all reducers the items handed to Reduce are exactly those the mappers produced, and each reducer's part is sorted |
| MapReduceRun.GroupedIffNoGap | lib/mapreduce/map_reduce_lib.c:676-765 | Every item reaches the reducer whose range holds its hash if and only if no chunk skips a reducer range |
| MapReduceRun.MeetIffSeatsAgree | lib/mapreduce/map_reduce_lib.c:622-765 | Equal hashes meet at one reducer if and only if their seats agree over all chunks |
| MapReduceJob.SampleAll | lib/mapreduce/map_reduce_lib.c:432-440 | A first chunk of at least 100 items per node is sampled at 100 to 200 places per node, a smaller one by its last hash; the histogram is exact if and only if the chunk is that large or has fewer than 65536 items |
| MapReduceJob.NodeLists | lib/mapreduce/channels_conf.c:80-119 | Every map node computes the list the exchange runs over; it counts from one if and only if the n ids are among 1 to n |
| MapReduceJob.TablesAgree | lib/mapreduce/map_reduce_lib.c:448-455 | After any complete run of the exchange every node holds the same histograms in the same order |
| MapReduceJob.AllDividers | lib/mapreduce/map_reduce_lib.c:457-465 | So all nodes compute the same dividers, which rise to the greatest hash |
| MapReduceJob.JobLoad | lib/mapreduce/map_reduce_lib.c:418-465 | For the job: the total is the number of items in the first chunks, at least k+1 even shares of them lie at or below divider k, at most the last block above the last divider from the samples, and strictly below divider k fewer than k+1 shares plus steps |
| MapReduceJob.RunJob | lib/mapreduce/map_reduce_lib.c:418-1167 | The job from the histograms on, over every complete exchange: conservation, sorted parts, what each reducer gets, and when equal hashes meet |
| Descriptors.RunsCoherent | lib/fs/transparent_mount.c:459-535 | After any run of open, dup, dup2 and close: refcounts equal the number of handles naming the description, used handles name live descriptions, descriptions run out only with handles |
| Descriptors.OpsAreCalls | lib/fs/transparent_mount.c:288-535 | A step of a run is the call of its name |
| Descriptors.Exhausted | lib/fs/open_file_description.c:48-50 | Pigeonhole: no description free implies no handle free, so no handle ever gets description -1 |
| Descriptors.Live | lib/fs/open_file_description.c:20-22 | A used handle names a description with a positive refcount |
| Descriptors.DupMeaning | lib/fs/transparent_mount.c:459-491 | The lowest free handle on the same description, everything else as it was but for exact reference counts; a failure leaves no trace |
| Descriptors.DupThenClose | lib/fs/transparent_mount.c:459-491 | Closing the duplicate undoes dup |
| Descriptors.Dup2Meaning | lib/fs/transparent_mount.c:493-535 | Target stands for the same open file, all other handles are as they were, of the descriptions only reference counts change and are exact; a failure leaves no trace |
| Descriptors.OpenMeaning | lib/fs/mem_mount_wraper.cc:617-645 | Open succeeds if and only if a handle is free and the file is not refused; the lowest free handle stands for this mount, inode and parent, on a dead description that is now referred to once, at offset 0 and with these flags; everything else is as it was |
| Descriptors.CloseMeaning | lib/fs/mem_mount_wraper.cc:538-555 | Close fails exactly on an unused handle; otherwise the handle is free, its description has one reference less, and everything else is as it was |
| Descriptors.OpenThenClose | lib/fs/mem_mount_wraper.cc:607-660 | Open returns the lowest free handle; closing it undoes open |
| Descriptors.OpenFailure | lib/fs/mem_mount_wraper.cc:617-645 | A failed open leaves the tables as they were if and only if there was no free handle: the refusal of a directory keeps a handle |
| Descriptors.RefusedExample | lib/fs/mem_mount_wraper.cc:617-645 | A refused directory on empty tables: -1, and handle 0 is used |
| Descriptors.LowestFree | lib/fs/handle_allocator.c:42-54 | The naive scan: the lowest free place or -1 |
| DescriptorTables.OpenFilesPool.SeekUnusedSlot | lib/fs/open_file_description.c:35-45 | The search from the hint finds what a scan from 0 finds |
| DescriptorTables.OpenFilesPool.GetNew | lib/fs/open_file_description.c:48-56 | The lowest free description, reset, with one reference |
| DescriptorTables.OpenFilesPool.Refer | lib/fs/open_file_description.c:59-63 | One more reference, or -1 and nothing on a dead description |
| DescriptorTables.OpenFilesPool.Release | lib/fs/open_file_description.c:65-72 | One reference less, with the hint still below every free slot |
| DescriptorTables.HandleAllocator.SeekUnusedSlot | lib/fs/handle_allocator.c:42-54 | The search from the hint finds what a scan from 0 finds |
| DescriptorTables.HandleAllocator.Allocate | lib/fs/handle_allocator.c:57-69 | The lowest free handle, filled in, or -1 and nothing |
| DescriptorTables.HandleAllocator.Allocate2 | lib/fs/handle_allocator.c:71-83 | The given handle if it is free and in range, else -1 and nothing |
| DescriptorTables.HandleAllocator.Free | lib/fs/handle_allocator.c:85-95 | The slot is free again, with the hint still below every free slot |
| DescriptorTables.TransparentMount.Open | lib/fs/mem_mount_wraper.cc:617-645 | Tables and result as in the hint-free specification |
| DescriptorTables.TransparentMount.CloseHandle | lib/fs/mem_mount_wraper.cc:538-555 | Both assertions on the way hold; one reference and the handle are gone |
| DescriptorTables.TransparentMount.Close | lib/fs/transparent_mount.c:288-296 | Tables and result as in the hint-free specification |
| DescriptorTables.TransparentMount.Dup | lib/fs/transparent_mount.c:459-491 | Tables and result as in the hint-free specification, rollback included |
| DescriptorTables.TransparentMount.Dup2 | lib/fs/transparent_mount.c:493-535 | Tables and result as in the hint-free specification, rollback included |
| DescriptorTables.TransparentMount.Perform | lib/fs/transparent_mount.c:459-535 | Any run of calls leaves the tables as the hint-free specification does |
| BitArrays.BitArray.GetBit | lib/helpers/bitarray.c:63-65 | The bit of that index |
| BitArrays.BitArray.ToggleBit | lib/helpers/bitarray.c:55-61 | Exactly one bit changes |
| BitArrays.BitArray.SearchEmptybitSequenceBegin | lib/helpers/bitarray.c:23-51 | The byte-skipping search returns what the bit-by-bit search returns, across byte boundaries |
| BitArrays.LowestRun | lib/helpers/bitarray.c:23-51 | The bit-by-bit search: the lowest start of n clear bits, or -1 if and only if there is none |
| Heaps.RunsApart | lib/memory/memory_syscall_handlers.c:76-305 | After every run of mmap, munmap and sysbrk no byte of a mapped page lies below the break or the lowest mapping address, and the break stays at or below that address |
| Heaps.OpsAreCalls | lib/memory/memory_syscall_handlers.c:174-305 | A step of a run is the call of its name |
| Heaps.MappingsDisjoint | lib/memory/memory_syscall_handlers.c:76-122 | After any run that does not clear the pages of a mapping, a new mapping lies wholly below or wholly above it |
| Heaps.MmapApart | lib/memory/memory_syscall_handlers.c:76-122 | mmap keeps the separation |
| Heaps.MunmapApart | lib/memory/memory_syscall_handlers.c:275-305 | Every munmap keeps the separation, whatever it clears |
| Heaps.SysbrkApart | lib/memory/memory_syscall_handlers.c:174-192 | sysbrk keeps the separation |
| Heaps.SysbrkMeaning | lib/memory/memory_syscall_handlers.c:174-192 | The break moves exactly to addresses from the start of the heap up to the lowest mapping; below the start the break is told, otherwise the call is refused, and nothing else ever changes |
| Heaps.BreakIsLast | lib/memory/memory_syscall_handlers.c:174-192 | After any run the break is where the last sysbrk that moved it put it |
| Heaps.MmapIffRoom | lib/memory/memory_syscall_handlers.c:76-122 | mmap succeeds if and only if some run of enough free pages lies at or above the break; a failure changes nothing |
| Heaps.MmapMeaning | lib/memory/memory_syscall_handlers.c:76-122 | The pages were free, lie between break and top, are the only ones newly marked, and lower the number of available pages by exactly their count; besides only the lowest mapping address changes, to the lower of old and new |
| Heaps.MunmapClears | lib/memory/memory_syscall_handlers.c:275-305 | Which pages munmap clears for any address and length, and that it does nothing outside the range from the page of the break to the highest page |
| Heaps.AvailableMeaning | lib/memory/memory_syscall_handlers.c:316-328 | The available pages are the unmarked ones that reach above the break |
| Heaps.MunmapUndoesMmap | lib/memory/memory_syscall_handlers.c:275-289 | munmap of what mmap returned restores the bitmap if and only if the length is at most one page |
| Heaps.MunmapStrays | lib/memory/memory_syscall_handlers.c:282-289 | Of a larger mapping it frees one page and clears the pages below the mapping instead |
| Heaps.TwoPagesExample | lib/memory/memory_syscall_handlers.c:282-289 | Two pages mapped and unmapped in a heap of four: one stays marked |
| MemoryManagers.MemoryManager.constructor | lib/memory/memory_syscall_handlers.c:141-170 | The bitmap covers all pages above the initial break |
| MemoryManagers.MemoryManager.Mmap | lib/memory/memory_syscall_handlers.c:242-268 | State and reply as in the specification with the naive search |
| MemoryManagers.MemoryManager.Munmap | lib/memory/memory_syscall_handlers.c:275-305 | State as in the specification |
| MemoryManagers.MemoryManager.Sysbrk | lib/memory/memory_syscall_handlers.c:174-192 | State and reply as in the specification |
| MemoryManagers.MemoryManager.GetAvphysPages | lib/memory/memory_syscall_handlers.c:316-328 | The number of unmarked pages among those that reach above the break |

## Left out

- BoundedWaiting.BoundedWait: needs the standard priority 0 to be at most p+1, because new and resumed threads enter the ready queue at 0 whatever their base priority is.
- Wire.RoundTrip: keys and values are not empty and sizes fit a C int, because the reader asserts that every read returns at least one byte and sizes travel as ints.
- Dividers.GetHistogram: a step of 65536 or more on a buffer of as many items is excluded, because the call then does not return (`SamplingEnds`).
- Pth.Library.Turn: the events of a control block are a sequence; the links of event rings are in EventRings.
- MapReduceJob.RunJob: map nodes have the ids 1 to n, as the code assumes when it stores a node's own histogram at its id minus one; `NodeLists` says when they have.
- MapReduceJob.SampleAll: chunks have fewer than 6553600 items per node, because otherwise the step needs more than 16 bits and the sampling does not end.
- MemoryManagers.MemoryManager.Munmap: a length that would leave the 8192 bytes of the bitmap is excluded, because the code then changes memory behind it.
- NodeList.GetNodesListByType: qsort is taken by its contract, a sorted permutation of the table.
- MapReduceRun.MapReduce: chunks come in sorted, as qsort with a comparator that agrees with the hash order leaves them; hashes are compared through a rank into the integers, and the last divider is at least every hash.
- MapReduceRun.ReduceNodeMain: the Combine branch and the user's Map, Combine and Reduce functions are not modelled.
- DescriptorTables.TransparentMount.Open: path lookup, node reference counts, O_APPEND and O_TRUNC are not modelled; whether a directory is refused is a parameter.
- Heaps.Mmap: the file-backed branch and the wrap-around of 32-bit addresses and lengths are not modelled.
- Machine contexts, stacks, stack guards and signals of Pth: a context switch is one step.
- Descriptor polling, timers, signals and waits for a thread state other than dead in the event manager: which of these events are ready is an arbitrary choice per pass.
- Load average, thread times and the cleanup handlers and mutex releases of dying threads.
- NULL threads, the scheduler thread as a target, and thread ids that were already freed: the first two are rejected at once, the last is an error of the caller.
- Changing a thread's priority or joinability through its attributes while it is queued.
- Partial writes and reads on channels: a channel delivers what is asked for as long as it has it.
- MapInputDataProvider, channel mounts, directory listing, configuration parsing and the libc and system call layers: input and output, or code that would add only easy members.
