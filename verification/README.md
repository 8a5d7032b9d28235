# A verified model of the user-level thread scheduler

The library runs up to 100 user-level threads on one CPU: a preemptive round-robin scheduler with
spawn, terminate, block, resume, sleep and a timer tick. Its state lies in five structures (a map of
active threads, a FIFO ready queue, an unordered set of sleepers, a min-heap of recycled ids, some
counters) and in each thread's own state tag, sleep countdown and quantum counter. No single function
keeps them consistent. This project models the scheduler and proves what it keeps, when threads run
and wake, and that it behaves like a much simpler scheduler.

## How the project is built

| file | holds |
|---|---|
| `ThreadModel.dfy`, `SchedulerModel.dfy` | the value of a thread and of the scheduler at one instant, and what each operation makes of it; which pointers it follows and which asserts it meets |
| `Threads.dfy`, `Schedulers.dfy`, `UThreads.dfy` | the classes and the API, with fields updated in place and the source's loops, proved against those functions |
| `Invariant.dfy`, `Runs.dfy` | the invariant between operations, and runs: every finite sequence of calls and ticks from the constructor state |
| `Driver.dfy` | any sequence of calls and ticks carried out on the object itself, which goes through a run |
| `Ageing.dfy` | the loop that ages sleepers while erasing from the set it iterates over |
| `AbstractScheduler.dfy`, `Refinement.dfy` | the scheduler a user reasons about (running id, queue, blocked set, wake quanta) and the equivalence with the concrete one |
| `Fairness.dfy`, `SleepTiming.dfy`, `Blocking.dfy`, `Accounting.dfy`, `ResumePoints.dfy`, `Capacity.dfy`, `Laws.dfy` | order and waiting, sleep timing, what a block achieves, quantum counters, jump targets, spawning up to the limit, replies and round trips |
| `Queues.dfy` | facts about duplicate-free queues |

An API call or a tick is one atomic step: `uthreads.cpp` keeps the timer signal blocked during a call.
No tick is assumed to land between the unblocking and the jump in `scheduler.cpp` lines 120-121.
`sigjmp_buf` is kept as a resume point: never saved, at the entry, or saved in a given call during a
given quantum. A call that switches threads ends in `JumpTo(id)`; when its thread is jumped back to,
execution continues behind `save_env` with `executedFromJump` true, which the `Finish...` methods of
`Schedulers.Scheduler` cover besides the first return. Some source functions are split into several
methods there, so that each proof stays small.

The constants of the source are named in the model and in the methods' bodies. The properties and the
abstract scheduler write out the numbers `uthreads.h` promises: limit 100, replies 0 and -1.

The set of sleepers is iterated in any order. A run records the order in which simultaneous wakers
were met, since nothing else depends on it (`Ageing.AgeingOutcomes`).

Two places where the code does other than a reader of `uthreads.h` may expect:

- `uthread_block` on a sleeping thread replies 0 and does nothing, so the thread becomes ready when its
  sleep ends, with no `uthread_resume`. A block takes hold if and only if the thread is not asleep
  (`Blocking.BlockTakesHold`); `Blocking.BlockedSleeperWakes` gives a run in which it does not.
- The argument of `uthread_sleep` is not checked. `-1` from a thread other than main fails the assert in
  `thread.cpp` line 44 (`Blocking.SleepOfMinusOneFails` gives a run); it is the only way a call or tick
  can fail an assert (`Runs.OperationsAreSafe`). Any other negative number acts like 0
  (`AbstractScheduler.WakeQuantum`).

## Model

| member | source | states |
|---|---|---|
| Threads.Thread.constructor | thread.cpp:13-18 | a new thread is ready, has run for no quantum, and has a resume point at its entry unless it is the main thread |
| Threads.Thread.SetBlock | thread.h:25 | the whole new value of the thread; a sleeping one becomes blocked and sleeping |
| Threads.Thread.SetReady | thread.h:27 | the whole new value of the thread |
| Threads.Thread.SetRunning | thread.cpp:63-66 | the whole new value of the thread, one quantum older |
| Threads.Thread.SetSleep | thread.cpp:38-41 | the whole new value of the thread, countdown included |
| Threads.Thread.UpdateSleepValue | thread.cpp:43-51 | counts down, or ends the sleep when the countdown is below 1; requires what the assert demands |
| Threads.Thread.WakeUp | thread.cpp:53-61 | sleeping becomes ready, blocked and sleeping becomes blocked |
| Threads.Thread.Unblock | thread.cpp:68-77 | blocked becomes ready, blocked and sleeping becomes sleeping, anything else stays |
| Threads.Thread.SaveEnv | thread.cpp:79-82 | the first return of save_env: the resume point is the present call and quantum |
| ThreadModel.SleepLastsExactly | thread.cpp:38-61 | a sleep of n survives n rounds of ageing with the countdown one lower each time, and the next round ends it, giving back the thread as it was but ready, or blocked if it was; no round trips the assert |
| ThreadModel.FlagsAreIndependent | thread.cpp:24-77 | blocked and asleep come and go independently; set_block and set_sleep lose the other flag exactly for a thread that has both; unblock undoes set_block exactly on a ready or sleeping thread |
| Schedulers.Scheduler.constructor | scheduler.cpp:11-18 | the object's value is the initial one: main running in quantum 1 with id 0 taken out of the heap |
| Schedulers.Scheduler.GenerateThreadId | scheduler.cpp:20-30 | takes the least recycled id, or grows the largest id when there is none |
| Schedulers.Scheduler.CreateThread | scheduler.cpp:227-240 | null exactly when 100 threads are active and then without effect; otherwise a fresh ready thread with the generated id |
| Schedulers.Scheduler.CreateThreadAndPushToReady | scheduler.cpp:55-65 | the whole new value of the object and the reply |
| Schedulers.Scheduler.EraseThreadFromReadyQueue | scheduler.cpp:90-98 | the loop removes the first entry with the id and nothing else and replies 0, or -1 exactly when there is none |
| Schedulers.Scheduler.UpdateSleepingThreads | scheduler.cpp:195-209 | for any iteration order: every sleeper aged once, those whose countdown is over taken out and queued behind the old queue, nothing else changed; requires what the assert of update_sleep_value demands |
| Schedulers.Scheduler.RunTopmostThreadInReadyQueue | scheduler.cpp:105-123 | total up by one, sleepers aged, front popped and run, in that order; the failure branch for an empty queue included |
| Schedulers.Scheduler.TerminateThread | scheduler.cpp:67-88 | the whole new value and the reply for a missing, running, sleeping, ready or blocked thread; the containers hold no dangling pointer afterwards, given that the queue and the sleepers are filed as the tags say (`Permits`, which `Runs.ProceedingIsPermitted` gives for every reachable state) |
| Schedulers.Scheduler.BlockThread | scheduler.cpp:125-147 | the whole new value and the reply for a missing, running, ready or other thread |
| Schedulers.Scheduler.FinishBlock | scheduler.cpp:133-146 | behind save_env: a resumed call replies 0 and changes nothing, the first return blocks and switches |
| Schedulers.Scheduler.ResumeThread | scheduler.cpp:149-162 | the whole new value and the reply |
| Schedulers.Scheduler.SleepThread | scheduler.cpp:164-175 | the sleeper is in the set before the ageing of the same call; whole new value and reply |
| Schedulers.Scheduler.FinishSwitch | scheduler.cpp:169-186 | behind save_env of sleep and tick: a resumed call replies 0 and changes nothing, the first return switches |
| Schedulers.Scheduler.InternalTimeHandler | scheduler.cpp:177-186 | the running thread is queued last and saved, then the front runs |
| Schedulers.Scheduler.GetQuantumsRunningNum | scheduler.cpp:215-220 | the thread's counter, or -1 when it does not exist |
| UThreads.UThreadInit | uthreads.cpp:17-26 | -1 exactly for a non-positive quantum; otherwise 0 and a valid scheduler in its initial state, all of whose objects are new |
| UThreads.UThreadSpawn | uthreads.cpp:27-43 | one step of a run; -1 exactly for a null entry or with 100 active threads, otherwise an id from 1 to 99 that was free; validity and the invariant are kept, and only new thread objects are added, so that any call can follow |
| UThreads.UThreadTerminate | uthreads.cpp:44-58 | one step of a run, or the end of the process exactly for id 0; -1 exactly for a missing thread, a jump exactly for the running one, otherwise 0 |
| UThreads.UThreadBlock | uthreads.cpp:59-75 | one step of a run; -1 exactly for main or a missing thread, a jump exactly for the running one, otherwise 0 |
| UThreads.UThreadResume | uthreads.cpp:76-87 | one step of a run; 0 for an active thread, -1 for a missing one |
| UThreads.UThreadSleep | uthreads.cpp:88-104 | one step of a run; -1 for main, a jump for any other thread |
| UThreads.StaticExternalTimeHandler | scheduler.cpp:222-225 | one step of a run that always jumps to the new running thread |
| UThreads.UThreadGetTid | uthreads.cpp:105-110 | the id of the thread whose tag says running |
| UThreads.UThreadGetTotalQuantums | uthreads.cpp:111-117 | the total |
| UThreads.UThreadGetQuantums | uthreads.cpp:118-128 | the thread's counter; -1 exactly when it does not exist |
| Invariant.GeneratedIdIsFree | scheduler.cpp:20-30 | a spawn with fewer than 100 active threads takes the least natural number not in use, and it is from 1 to 99 |
| Invariant.SuspendCoherent | scheduler.cpp:67-175 | taking the running thread off the CPU by terminate, block, sleep or tick leaves all structures in agreement, nobody running, and main queued |
| Invariant.RunTopmostRestoresInv | scheduler.cpp:105-123 | from there the switch restores the invariant and runs the thread that was at the front |
| Runs.SwitchOutcome | scheduler.cpp:105-186 | a suspending operation runs the thread at the front, after appending first whom it suspends and then the wakers; it opens exactly one quantum |
| Driver.Drive | uthreads.h:24-25 | an object initialised once carries out any list of calls and ticks in order, up to the first that does not proceed, and goes through a run with exactly the replies given; so what is proved of runs holds of the object |
| Runs.RunKeepsInv | scheduler.cpp:55-209 | in every state of every run: tags agree with containers, the queue has no duplicates, one thread runs and it is the recorded one, no container holds a dead thread, no thread is both blocked and sleeping, main is running or ready, active and recycled ids are disjoint and make up 0..largest below 100, sleepers count from 0 up and nobody else counts |
| Runs.OperationsAreSafe | scheduler.cpp:57-175 | no operation follows a dangling pointer in a reachable state, and an assert fails if and only if a thread other than main calls sleep(-1) |
| Runs.OperationsAreEnabled | uthreads.cpp:27-104 | an operation has a successor state if and only if it is not terminate(0) and not that sleep(-1) |
| Runs.CpuIsNeverIdle | scheduler.cpp:105-113 | at every switch of every run main is queued, so the empty-queue branch is never taken; the front of the queue runs |
| Ageing.AgeLoopIsAged | scheduler.cpp:195-209 | the loop, in any order, equals one simultaneous ageing of all sleepers |
| Ageing.AgeingOutcomes | scheduler.cpp:195-209 | an order of the wakers can come out of the loop if and only if it lists each waker once |
| Ageing.AgeingOrderIrrelevant | scheduler.cpp:195-209 | two iteration orders give the same state up to a permutation of the wakers behind the unchanged old queue |
| Refinement.StepRefines | scheduler.cpp:20-209 | every operation of the concrete scheduler is one of the abstract scheduler, same waker order, same reply |
| Refinement.StepRealizes | scheduler.cpp:20-209 | every operation of the abstract scheduler is carried out by the concrete one, same waker order, same reply |
| Refinement.RunRefines | scheduler.cpp:11-209 | the abstraction of every run is a run of the abstract scheduler with the same replies |
| Refinement.RunRealizes | scheduler.cpp:11-209 | every run of the abstract scheduler is the abstraction of a run with the same replies |
| AbstractScheduler.AbsStepDeterministic | uthreads.h:89-90 | the order of simultaneous wakers is the abstract scheduler's only freedom |
| Fairness.QueueOrderIsKept | scheduler.cpp:63-202 | after any step, the threads still queued come first and in their old order, the newcomers behind them |
| Fairness.PositionAdvances | scheduler.cpp:105-186 | a queued thread never moves back, and each new quantum moves it forward by exactly one |
| Fairness.BoundedWaiting | scheduler.cpp:105-123 | a thread at position k of the queue in quantum T runs by quantum T+k+1, unless it is blocked or terminated before it has run; that turn is its first since |
| Fairness.NoOvertaking | scheduler.cpp:105-186 | while a thread goes on waiting in the queue, the thread that was on the CPU starts no second quantum |
| Fairness.ReadyQueueBound | scheduler.cpp:228-230 | at most 99 threads wait, so every position k above is at most 98 |
| Fairness.MainRunsInEveryWindow | scheduler.cpp:105-186 | the main thread runs in every window of 100 consecutive quanta of every run |
| SleepTiming.SleepContinues | scheduler.cpp:131-209 | no operation but terminating the sleeper shifts its wake-up, block and resume of it included |
| SleepTiming.SleepIsExact | thread.cpp:38-51 | after sleep(n) in quantum S the countdown is S+n-total in every state until the one that opens quantum S+n+1, which finds the thread ready |
| SleepTiming.WakeState | scheduler.cpp:195-209 | that state exists in every run that gets so far, and the thread is asleep in all states before it |
| SleepTiming.SleeperNotBefore | scheduler.cpp:105-209 | in any run the sleeper is not on the CPU again before quantum S+n+2, whatever happens to it once it has run; if it is terminated before that, its id may be another thread's |
| SleepTiming.SleeperRunsAgain | scheduler.cpp:105-209 | its next turn on the CPU begins in a quantum from S+n+2 to S+n+100, unless before that turn it is terminated, or blocked after waking |
| Blocking.BlockTakesHold | scheduler.cpp:125-147 | after a block of an active thread other than main the thread is blocked if and only if it was not asleep; if it was, nothing changed |
| Blocking.BlockedUntilResumed | uthreads.h:62-74 | in every run a blocked thread stays blocked and off the CPU until it is resumed or terminated |
| Blocking.SleepOfMinusOneFails | thread.cpp:44 | a run that reaches the failing assert: spawn, one tick, sleep(-1) |
| Blocking.BlockedSleeperWakes | scheduler.cpp:140-147 | a run in which a sleeping thread is blocked and becomes ready with no resume |
| Accounting.StepMovesAge | thread.cpp:63-66 | a switch adds one quantum to the thread it starts; only termination drops a counter; no other counter moves |
| Accounting.QuantumsAreConserved | scheduler.cpp:105-123 | the counters of active threads plus the final counters of terminated ones always equal the total |
| Accounting.GetQuantumsCountsStarts | scheduler.cpp:215-220 | get_quantums is the number of quanta the run started on that thread since its creation, or -1 when there is no such thread |
| ResumePoints.ResumePointsAreUpToDate | scheduler.cpp:133-181 | in every state of every run, every thread's resume point is the call and quantum in which it last left the CPU, or its entry |
| ResumePoints.JumpTargetIsUpToDate | scheduler.cpp:114-121 | no jump targets an environment that was never saved or was saved before the thread's last turn; it targets an entry exactly for a thread that never ran |
| Laws.RepliesAreExact | uthreads.cpp:27-104 | a call replies -1 if and only if its documented condition holds (for spawn: null entry or 100 active threads), and then changes nothing; it jumps away exactly when it suspends its caller; a spawn replies the least free id, 1 to 99; every other call replies 0 |
| Laws.GuardsAreExact | uthreads.cpp:27-104 | a call that a guard of uthreads.cpp stops has no effect and replies -1, or ends the process; one that passes fails only for a missing thread or with 100 active threads |
| Capacity.IdsInOrder | scheduler.cpp:20-30 | in every run, as long as no thread has been terminated and whatever else is called, spawns reply 1, 2, ... up to 99, and -1 with no effect from then on |
| Capacity.SpawnMany | scheduler.cpp:228-230 | any number n of spawns in a row is a run; the first 99 reply 1 to 99, all others -1, and at most 100 threads are active at the end |
| Laws.ThreadsAreCountedOnce | scheduler.h:23-26 | the active threads are the running one, the queued, the sleeping and the blocked, each counted once, and at most 100 |
| Laws.EffectIsExact | scheduler.cpp:125-162 | block changes something exactly for a ready or running thread other than main, resume exactly for a blocked one; both leave sleepers alone |
| Laws.BlockThenResume | scheduler.cpp:140-162 | blocking and resuming a ready thread moves it to the back of the queue and does nothing else; a second block has no effect |
| Laws.SpawnThenTerminate | scheduler.cpp:20-98 | terminating a thread just spawned restores the state, but for a new id that stays recycled; the next spawn gives the same id and the same state |

## Left out

- jmp_buf contents, stacks, pc and sp mangling, and the check of the return value in setup_env: only the resume point is kept.
- setitimer, sigaction and sigprocmask, and the length of a quantum: ticks may come at any step boundary.
- A second call of uthread_init, and calls before it: `uthreads.h` excludes them.
- bad_alloc, exit paths and the destructor: terminate(0) ends the run.
- Freeing a terminated thread's object, the running thread's own stack included: the object is only dropped from the containers.
- The flags check_if_block_only and check_if_sleeping_only: no caller passes them.
- The asserts of `scheduler.cpp` line 243 and `thread.cpp` line 86, on the signal mask and on sigsetjmp; the one of `scheduler.cpp` line 14 is proved as the constructor's contract.
- The sigmask a jump restores, error messages and other output.
- 32-bit overflow of the counters: integers are unbounded.
- `main.cpp` and the demos.
- Threads.Thread.SaveEnv: only the first return; the second one, with true, is a parameter of the `Finish...` methods.
- Schedulers.Scheduler.SleepThread: requires an argument other than -1, since that one fails an assert; `Runs.OperationsAreSafe` states that case.
- UThreads.UThreadSleep: same.
