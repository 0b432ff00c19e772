# Proofs about the SYS/BIOS kernel and its POSIX layer

A model of the scheduling core, the locks, the allocators, the time keeping and the thread-specific data of SYS/BIOS and
its POSIX layer, with proofs of what each promises over whole runs. `dafny verify dfyconfig.toml` checks all of it.

The model takes two forms. A region of code that no other thread can enter is a *step*: a function from the state before to
the state after. Runs are sequences of steps by any threads in any order, and the invariants and theorems are about every
state of every run. Beside the steps, classes hold the fields of the C modules and methods with the statements and loops of
the C functions; each method is proved to do exactly what its step says, and carries the assertions of the source.

| files | of the kernel |
|---|---|
| PthreadMutex, PthreadMutexCode, MutexToken, PriorityInheritance, PriorityWithdrawal, PriorityInversion, WithdrawalCycles | mutexes with priority inheritance and protection |
| RwLock, RwLockCode, RwLockTimes, RwLockAnswers | read-write locks |
| GateMutexPri, Semaphore, PriorityQueue, Mailbox | the donating gate, semaphores, their wait queues, mailboxes |
| TaskScheduler, TaskEffects, TaskCode, SwiScheduler, SwiCode, Bitmap, QueueRing | task and Swi scheduling, and the intrusive ring all queues are made of |
| HeapBlocks, HeapMem, HeapRuns, HeapBuf, HeapMultiBuf | the first-fit heap, pools, and the multi-pool heap |
| ClockQueue, ClockCode, ClockRuns, ClockPeriods, SecondsClock, MonotonicClock | the clock queue, the drift-corrected seconds, the monotonic clock |
| PthreadKey | thread-specific data |
| Base, Arithmetic | small vocabulary |

What the code does that its documentation or assertions do not say, each with a proof of exactly when:

- `setInheritPriority` leaves the stored ceiling of the mutex it stops at as it is (packages/ti/posix/tirtos/pthread_mutex.c:913-921).
  A thread that later releases another mutex can then run below a waiter. `DonationCovers`, `StaleCeilingInverts` and
  `UnlockPosixIff` give the conditions, `InversionRun` an example.
- `resetInheritPriority` tests the last waiter's priority only, and on a cycle of mutexes may go round for ever: `CycleEndsIff`
  and `ResetEndsIff` say exactly when, and `WithdrawalSpins` is a run that ends so.
- The assertion at packages/ti/posix/tirtos/pthread_rwlock.c:230 does not always hold (`BlockedAssertionIff`, `BlockedAssertionFails`).
- `Clock_workFuncDynamic` counts the timer interrupt from the current tick but records the next tick from the last serviced
  one, so that `Clock_startI` may leave the interrupt later than the new timeout (`StartLateIff`, `NeverLate`, `LateInterrupt`).
- The comment of SecondsClock says that a positive drift adds seconds; the code subtracts, which is what bounds the error.
  The two-word count of seconds is wrong in two cases (`TotalAdvancesIff`, `AdvanceFails`), and the branch of setTime marked as not happening
  can be reached (`SetTimeReachesSecond`). Setting a time whose nanoseconds carry out of the lower word loses the carry
  (`SetTimeReadsIff`).
- The address comparison of HeapMultiBuf is wrong for pools 2^31 bytes apart (`CompareRightIff`); blocks are freed to their own
  pool exactly if no neighbours in the array are (`RoutesRightIff`, `FarPoolsMisroute`).
- HeapMem rounds requests near 2^32 up to 0 (`RoundingWrapsIff`), and adds the alignment offset without regard to the carry
  (`AnswerRightIff`, `WrappedSumAccepts`).

## Model

| member | source | states |
|---|---|---|
| `MutexToken.TokenInEveryRun` | packages/ti/posix/tirtos/pthread_mutex.c:603-807 | in every interleaving each mutex is in exactly one of three states: semaphore count one; granted to one thread that is not owner yet; owned, with lockCnt the number of lock calls its owner has not undone. A thread about to become owner finds owner NULL and lockCnt 0 |
| `MutexToken.MutualExclusion` | packages/ti/posix/tirtos/pthread_mutex.c:603-653 | two threads never hold the same mutex at once |
| `MutexToken.TryLockToken` | packages/ti/posix/tirtos/pthread_mutex.c:672-734 | the first region of a lock call keeps the three-state invariant, whatever the type, protocol and timeout |
| `MutexToken.FinishToken` | packages/ti/posix/tirtos/pthread_mutex.c:766-807 | the thread that was granted the token takes ownership: the two assertions hold and the invariant is kept |
| `MutexToken.UnlockToken` | packages/ti/posix/tirtos/pthread_mutex.c:500-534 | an unlock by a thread that does not own the mutex changes nothing; by its owner it keeps the invariant, handing the token to the first waiter or back to the count |
| `MutexToken.TryLockCodes` | packages/ti/posix/tirtos/pthread_mutex.c:603-735 | the code of the first region of a lock call is what it did to the locks held: 0 exactly if t holds one lock of m more; EBUSY, EDEADLK and EINVAL change nothing, EBUSY exactly if the mutex is owned or granted and the call does not wait; the calls that go on are granted the mutex or about to pend |
| `MutexToken.FinishCodes` | packages/ti/posix/tirtos/pthread_mutex.c:766-807 | a call granted the mutex in its pend ends with 0 and one lock more |
| `MutexToken.AbandonCodes` | packages/ti/posix/tirtos/pthread_mutex.c:741-756 | a call that timed out ends with no lock more |
| `MutexToken.UnlockCodes` | packages/ti/posix/tirtos/pthread_mutex.c:500-534 | 0 exactly if t held a lock of m, of which it has one fewer; else EPERM and nothing changed. The last one goes to the thread that has pended longest, or nobody has the mutex |
| `MutexToken.PendQueueMoves` | packages/ti/posix/tirtos/pthread_mutex.c:500-756 | over every step: threads join the pend queue last, time out of it, and are handed the mutex from its head |
| `PriorityInheritance.SoundIsPosix` | packages/ti/posix/tirtos/pthread_mutex.c:820-832 | if the stored ceilings of held mutexes are neither too low nor owed to nobody, a thread runs exactly at the maximum of its own priority, the ceilings of protect mutexes it holds and the priorities of all threads blocked on inherit mutexes it holds |
| `PriorityInheritance.DonateDom` | packages/ti/posix/tirtos/pthread_mutex.c:896-927 | a donation along any ownership graph, cycles included, leaves every owner at or above all its waiters |
| `PriorityInheritance.DonateThenJoin` | packages/ti/posix/tirtos/pthread_mutex.c:715-734 | donating before joining the wait list, as the code does, gives the same state as joining first |
| `PriorityInheritance.DonationDominates` | packages/ti/posix/tirtos/pthread_mutex.c:715-734 | if every owner ran at or above its waiters, this still holds once the caller has joined the wait list; only threads below the caller are raised, and exactly to its priority |
| `PriorityInheritance.DonationCovers` | packages/ti/posix/tirtos/pthread_mutex.c:896-927 | the stored ceilings remain sufficient if and only if the mutex at which the donation stops already has a ceiling, or an owner with a base priority, that covers the donated priority |
| `PriorityWithdrawal.EarlyExit` | packages/ti/posix/tirtos/pthread_mutex.c:864-879 | the early exit compares with the last waiter and not the highest, yet when it is taken the owner keeps its rightful priority |
| `PriorityWithdrawal.RoundKeeps` | packages/ti/posix/tirtos/pthread_mutex.c:853-889 | a full round never raises the owner, and leaves it at or above all its waiters if and only if its base and the ceilings it holds, that of the mutex recomputed, cover them |
| `PriorityWithdrawal.ResetRestores` | packages/ti/posix/tirtos/pthread_mutex.c:853-889 | whenever resetInheritPriority ends, on whatever graph, every owner runs at or above all its waiters and no boost outlives the waiter it came from, if the ceilings sufficed in every round, as they do when they covered all waiters before |
| `PriorityWithdrawal.ResetEnds` | packages/ti/posix/tirtos/pthread_mutex.c:853-889 | it ends where the wait chain from the mutex does, in any state and whatever other threads are blocked on |
| `PriorityWithdrawal.ResetUnique` | packages/ti/posix/tirtos/pthread_mutex.c:853-889 | its result does not depend on how many rounds it is given |
| `PriorityWithdrawal.WithdrawalRestores` | packages/ti/posix/tirtos/pthread_mutex.c:741-756 | the whole time-out path: the thread is on no wait list any more and all priorities are right, under the same condition |
| `PriorityWithdrawal.OwnershipKeeps` | packages/ti/posix/tirtos/pthread_mutex.c:779-805 | a new owner recomputes the ceiling from the wait list and runs at least there |
| `PriorityWithdrawal.UnlockKeeps` | packages/ti/posix/tirtos/pthread_mutex.c:510-534 | from any state with the right priorities, an unlock by a thread holding any number of mutexes leaves the right priorities if and only if its base and the ceilings of the mutexes it keeps cover their waiters |
| `PriorityWithdrawal.PosixPriorityInEveryRun` | packages/ti/posix/tirtos/pthread_mutex.c:603-807 | in every run in which the ceilings suffice wherever a boost is taken back, whatever the donations did, every thread runs exactly at the priority the entry pthread_mutexattr_getprotocol of IEEE Std 1003.1-2017 prescribes, after every step |
| `PriorityWithdrawal.CoveredRunPosix` | packages/ti/posix/tirtos/pthread_mutex.c:603-807 | they always suffice in a run whose donations all stop at a covered mutex |
| `PriorityInversion.StaleCeilingInverts` | packages/ti/posix/tirtos/pthread_mutex.c:510-534 | when a thread releases a mutex, it stays at or above the waiters of another one it keeps if and only if its base priority or the highest ceiling stored in the mutexes it keeps, however many, covers them |
| `PriorityInversion.UnlockPosixIff` | packages/ti/posix/tirtos/pthread_mutex.c:510-534 | so its running priority after a last unlock is the one of IEEE Std 1003.1-2017 if and only if these cover everyone blocked on the mutexes it keeps |
| `PriorityInversion.InversionRun` | packages/ti/posix/tirtos/pthread_mutex.c:896-927 | a reachable state in which a thread of priority 1 holds an inherit mutex that a thread of priority 5 waits for: the break branch left the ceiling stale |
| `WithdrawalCycles.CycleEndsIff` | packages/ti/posix/tirtos/pthread_mutex.c:864-888 | on a cycle of any number of mutexes, whose owners run at or above their waiters, resetInheritPriority ends if and only if some owner on the cycle runs no higher than the last waiter of its mutex |
| `WithdrawalCycles.ResetEndsIff` | packages/ti/posix/tirtos/pthread_mutex.c:853-889 | for every wait chain: it ends if and only if there is no way along the chain to a cycle and round it on which the early exit is never taken |
| `WithdrawalCycles.AbandonEndsIff` | packages/ti/posix/tirtos/pthread_mutex.c:741-756 | so the time-out path of a lock call comes to its end under exactly that condition |
| `WithdrawalCycles.ResetRestoresIff` | packages/ti/posix/tirtos/pthread_mutex.c:853-889 | on a wait chain that ends, the withdrawal leaves the right priorities if and only if in each round the base and the ceilings of the adjusted owner cover its waiters |
| `WithdrawalCycles.WithdrawalSpins` | packages/ti/posix/tirtos/pthread_mutex.c:741-756 | a run of nine steps from the initial state, with all priorities right in its last one, after which the clean-up of a timed-out waiter never ends |
| `PthreadMutexCode.MutexModule.SetPrioCeiling` | packages/ti/posix/tirtos/pthread_mutex.c:934-955 | stores the highest waiter priority and returns that of the last waiter |
| `PthreadMutexCode.MutexModule.GetMaxPrioCeiling` | packages/ti/posix/tirtos/pthread_mutex.c:549-577 | the highest stored ceiling of the mutexes a thread holds |
| `PthreadMutexCode.MutexModule.Adjust` | packages/ti/posix/tirtos/pthread_mutex.c:820-832 | a thread runs at the maximum of its base and the ceilings it holds |
| `PthreadMutexCode.MutexModule.SetInheritPriority` | packages/ti/posix/tirtos/pthread_mutex.c:896-927 | the loop ends on every graph and is the donation |
| `PthreadMutexCode.MutexModule.ResetInheritPriority` | packages/ti/posix/tirtos/pthread_mutex.c:853-889 | wherever the withdrawal ends the loop does, and is the withdrawal |
| `PthreadMutexCode.MutexModule.BecomeOwner` | packages/ti/posix/tirtos/pthread_mutex.c:776-805 | taking ownership |
| `PthreadMutexCode.MutexModule.AcquireMutexPriority` | packages/ti/posix/tirtos/pthread_mutex.c:662-735 | the first region of a lock of a protect or inherit mutex: EINVAL, EDEADLK, EBUSY, nested lock, lock or wait |
| `PthreadMutexCode.MutexModule.AcquireMutexNone` | packages/ti/posix/tirtos/pthread_mutex.c:603-632 | the same for a mutex without protocol |
| `PthreadMutexCode.MutexModule.FinishAcquire` | packages/ti/posix/tirtos/pthread_mutex.c:766-807 | the granted thread becomes owner; the source assertions are proved |
| `PthreadMutexCode.MutexModule.MutexUnlock` | packages/ti/posix/tirtos/pthread_mutex.c:500-534 | EPERM, inner unlock, or release and hand-over |
| `HeapBlocks.CanonicalUnique` | packages/ti/sysbios/heaps/HeapMem.c:434-462 | a sorted free list without touching blocks is determined by which bytes are free |
| `HeapBlocks.RunInOneBlock` | packages/ti/sysbios/heaps/HeapMem.c:438-462 | a run of free bytes never crosses two entries of a fully coalesced list |
| `HeapBlocks.FreeUndoesAlloc` | packages/ti/sysbios/heaps/HeapMem.c:394-462 | giving back what was just taken restores the very same list |
| `HeapBlocks.LiveDetermines` | packages/ti/sysbios/heaps/HeapMem.c:245-462 | the free list depends only on which blocks are live |
| `HeapBlocks.AllFreed` | packages/ti/sysbios/heaps/HeapMem.c:189-203 | with nothing live the list is the single initial block |
| `HeapBlocks.SumCounts` | packages/ti/sysbios/heaps/HeapMem.c:489-497 | the sizes in the headers add up to the number of free bytes |
| `HeapBlocks.TakenSum` | packages/ti/sysbios/heaps/HeapMem.c:478-500 | an allocation lowers the total free size by exactly the size it hands out |
| `HeapMem.RoundingWrapsIff` | packages/ti/sysbios/heaps/HeapMem.c:273-278 | the 32-bit rounding of a request is right exactly up to 2^32 minus one unit; above it wraps to 0 |
| `HeapMem.TestRightIff` | packages/ti/sysbios/heaps/HeapMem.c:295-305 | the test of the search, whose sum may wrap too, is right for a block exactly if the sum of size and offset stays below 2^32 or wraps to more than the block holds |
| `HeapMem.AnswerRightIff` | packages/ti/sysbios/heaps/HeapMem.c:284-374 | for every request there is, the search finds n free bytes, or rightly none, if and only if the test is right at every block up to the first that fits |
| `HeapMem.WrappedSumAccepts` | packages/ti/sysbios/heaps/HeapMem.c:295-305 | a request whose size rounds without wrapping, 2^32 - 16 at alignment 32, for which a block of 64 bytes is accepted |
| `HeapMem.FirstFitIsLeast` | packages/ti/sysbios/heaps/HeapMem.c:285-308 | the first block that fits holds the lowest suitably aligned run of free bytes in the whole buffer |
| `HeapMem.NothingFits` | packages/ti/sysbios/heaps/HeapMem.c:285-374 | if no block fits, no suitably aligned run of free bytes of that length exists anywhere |
| `HeapMem.AdjAlignIsBoth` | packages/ti/sysbios/heaps/HeapMem.c:267-271 | the alignment used, for powers of two, is met exactly by the addresses that meet both the alignment asked for and minBlockAlign |
| `HeapMem.AllocatedFor` | packages/ti/sysbios/heaps/HeapMem.c:259-375 | so the answer is the lowest run of free bytes at both alignments, and NULL exactly if there is none |
| `HeapMem.CarveList` | packages/ti/sysbios/heaps/HeapMem.c:308-363 | carving keeps the list sorted, aligned and free of touching entries, and takes exactly the bytes handed out |
| `HeapMem.JoinList` | packages/ti/sysbios/heaps/HeapMem.c:434-462 | linking and joining keeps it so, and gives back exactly the bytes freed |
| `HeapMem.Heap.Alloc` | packages/ti/sysbios/heaps/HeapMem.c:245-375 | for the requests the code gets right: NULL exactly if no run of free bytes at the alignment asked for and at minBlockAlign is as long as the rounded size; otherwise the lowest such run, inside the buffer and disjoint from every live block; free and live blocks still tile the buffer, a step of the histories of HeapRuns |
| `HeapMem.Heap.FirstFit` | packages/ti/sysbios/heaps/HeapMem.c:281-374 | the search over the headers in memory, with that contract |
| `HeapMem.Heap.Carve` | packages/ti/sysbios/heaps/HeapMem.c:308-363 | the split of the block found |
| `HeapMem.Heap.Relink` | packages/ti/sysbios/heaps/HeapMem.c:314-363 | its header updates spell the carved list |
| `HeapMem.Heap.Free` | packages/ti/sysbios/heaps/HeapMem.c:394-465 | freeing a live block makes exactly its bytes free and leaves the list canonical, a step of the histories of HeapRuns; the source assertions hold |
| `HeapMem.Heap.Insert` | packages/ti/sysbios/heaps/HeapMem.c:434-462 | its header updates spell the joined list |
| `HeapMem.Heap.GetStats` | packages/ti/sysbios/heaps/HeapMem.c:478-500 | the total is the number of free bytes and cannot wrap; the largest free size |
| `HeapRuns.LargestServes` | packages/ti/sysbios/heaps/HeapMem.c:491-496 | the largest free size is exactly the largest request that can be served at the least alignment |
| `HeapRuns.HistoryIrrelevant` | packages/ti/sysbios/heaps/HeapMem.c:245-462 | two histories of allocs and frees ending with the same live blocks end with the same free list |
| `HeapRuns.EverythingFreed` | packages/ti/sysbios/heaps/HeapMem.c:394-462 | freeing everything, in any order, gives back the initial block |
| `HeapRuns.FreeRestores` | packages/ti/sysbios/heaps/HeapMem.c:245-462 | free right after alloc restores the heap exactly |
| `HeapRuns.FreeSizeFollows` | packages/ti/sysbios/heaps/HeapMem.c:478-500 | each alloc and free moves the total free size by exactly the size of its block |
| `RwLock.RunGood` | packages/ti/posix/tirtos/pthread_rwlock.c:221-275 | in every run: sem count, "a reader is active" and the writers granted or holding sum to one; the counters count what they say; readers are covered by tokens |
| `RwLock.Exclusion` | packages/ti/posix/tirtos/pthread_rwlock.c:265-275 | never two writers, never a writer with a reader, counting a granted writer |
| `RwLock.NoReaderStranded` | packages/ti/posix/tirtos/pthread_rwlock.c:328-380 | with no writer granted, holding or unlocking: no reader is blocked on readSem, each about to pend finds a token, each that has one gets the lock at its next step |
| `RwLock.WriterWaitsForHolder` | packages/ti/posix/tirtos/pthread_rwlock.c:265-275 | a writer waits only while somebody holds the lock or has been granted it |
| `RwLock.OwnerMeansHeld` | packages/ti/posix/tirtos/pthread_rwlock.c:107-113 | owner, which destroy tests, is set exactly while somebody holds the lock |
| `RwLock.WrOwnGood` | packages/ti/posix/tirtos/pthread_rwlock.c:181-185 | a writer that got sem finds no owner and no active reader |
| `RwLock.UnlockEndGood` | packages/ti/posix/tirtos/pthread_rwlock.c:245-254 | the unlocking writer is still owner after its posts, and no reader is left waiting |
| `RwLock.BlockedAssertionIff` | packages/ti/posix/tirtos/pthread_rwlock.c:229-231 | with readers active, the assertion that no reader is blocked holds if and only if no reader is about to pend, or between its wake-up or time-out and its next step |
| `RwLock.BlockedAssertionFails` | packages/ti/posix/tirtos/pthread_rwlock.c:229-231 | a run in which it does not hold |
| `RwLockAnswers.RdEnterAnswers` | packages/ti/posix/tirtos/pthread_rwlock.c:294-326 | a read-lock call answers 0 exactly if no writer holds or is granted the lock, and exactly then the thread has one read lock more; EBUSY, with nothing changed, exactly if one does and the call does not wait |
| `RwLockAnswers.RdResumeAnswers` | packages/ti/posix/tirtos/pthread_rwlock.c:336-379 | a woken reader gets 0 and one read lock more exactly if no writer is there; else it gives up or goes on |
| `RwLockAnswers.WrEnterAnswers` | packages/ti/posix/tirtos/pthread_rwlock.c:181-208 | a write-lock call gets the lock exactly if nobody has it; EBUSY, with nothing changed, exactly if somebody does and the call does not wait |
| `RwLockAnswers.BooksKept` | packages/ti/posix/tirtos/pthread_rwlock.c:221-379 | in every step each thread gains and loses exactly the locks that the answers of its own calls say |
| `RwLockAnswers.AnswersInRuns` | packages/ti/posix/tirtos/pthread_rwlock.c:181-379 | over runs: after a 0 a reader holds the lock beside no writer and a writer is alone; EBUSY says that this was impossible |
| `RwLockAnswers.UnlockHandsOn` | packages/ti/posix/tirtos/pthread_rwlock.c:229-245 | an unlock that leaves nobody hands the lock to the writer that has waited longest, or frees it |
| `RwLockAnswers.PostWakesFirst` | packages/ti/posix/tirtos/pthread_rwlock.c:248-250 | each post of readSem wakes the reader that has waited longest, or is counted |
| `RwLockAnswers.ReadersQueue` | packages/ti/posix/tirtos/pthread_rwlock.c:328-333 | a pend on readSem takes a token or waits last; a time-out, of a reader or a writer, leaves the others in order |
| `RwLockTimes.TimeoutIsTotal` | packages/ti/posix/tirtos/pthread_rwlock.c:320-379 | in every run with true times beside the 32-bit counter, however often a reader is woken and finds the lock taken: it gives up, in its pend or in the loop, only when the ticks since it blocked have reached its timeout, and a turn of the loop that does not get the lock gives up exactly then |
| `RwLockTimes.WaitsSince` | packages/ti/posix/tirtos/pthread_rwlock.c:320-326 | the start and the timeout these are counted from are those of the call that blocked |
| `RwLockCode.Lock.constructor` | packages/ti/posix/tirtos/pthread_rwlock.c:124-140 | the initial state |
| `RwLockCode.Lock.RdEnter` | packages/ti/posix/tirtos/pthread_rwlock.c:287-326 | the code up to the loop is the step; its assertions hold |
| `RwLockCode.Lock.RdResume` | packages/ti/posix/tirtos/pthread_rwlock.c:336-379 | one turn of the loop is the step; its assertions hold |
| `RwLockCode.Lock.WrOwn` | packages/ti/posix/tirtos/pthread_rwlock.c:271-273 | becoming owner; its assertions hold |
| `RwLockCode.Lock.PostReaders` | packages/ti/posix/tirtos/pthread_rwlock.c:248-250 | the loop gives every blocked reader a token |
| `RwLockCode.Lock.Unlock` | packages/ti/posix/tirtos/pthread_rwlock.c:221-259 | the whole unlock |
| `ClockQueue.DistanceIs` | packages/ti/sysbios/knl/Clock.c:426-447 | the distance a walk returns is the least way to an active timeout |
| `ClockQueue.ServicedDistance` | packages/ti/sysbios/knl/Clock.c:409-447 | a servicing walk always leaves at least one tick to skip to, so the service loop cannot stand still |
| `ClockQueue.SkipQuiet` | packages/ti/sysbios/knl/Clock.c:499-503 | the ticks skipped would have called nobody |
| `ClockQueue.SkippingIsEveryTick` | packages/ti/sysbios/knl/Clock.c:499-503 | from any state with the true distance the skipping loop does what walking every remaining tick does |
| `ClockQueue.ServiceRefines` | packages/ti/sysbios/knl/Clock.c:476-503 | the service loop makes the same calls at the same ticks in the same order as walking every tick from nextScheduledTick to now, for all 32-bit states, and leaves the same objects |
| `ClockCode.ClockModule.WalkQueueDynamic` | packages/ti/sysbios/knl/Clock.c:388-450 | the walk over the queue: objects, calls and distance |
| `ClockCode.ClockModule.WorkFunc` | packages/ti/sysbios/knl/Clock.c:310-380 | periodic mode walks every tick |
| `ClockCode.ClockModule.WorkFuncDynamic` | packages/ti/sysbios/knl/Clock.c:457-536 | dynamic mode: spurious interrupts, the skipping loop, and what is programmed |
| `ClockCode.ClockModule.StartI` | packages/ti/sysbios/knl/Clock.c:661-723 | both branches of a start, and whether the timer is reprogrammed |
| `ClockRuns.SpuriousIff` | packages/ti/sysbios/knl/Clock.c:485-492 | an interrupt is taken for spurious exactly when the recorded next tick has not come |
| `ClockRuns.RunGood` | packages/ti/sysbios/knl/Clock.c:457-536 | the invariant of runs with true, unbounded times beside the 32-bit ones |
| `ClockRuns.EveryTimeoutOnItsTick` | packages/ti/sysbios/knl/Clock.c:499-503 | over whole runs with starts and stops, even during a service, each object is called exactly in the walk of the true tick it is due at, and a service leaves no timeout behind |
| `ClockRuns.NextNeverLate` | packages/ti/sysbios/knl/Clock.c:514-533 | between services the recorded next tick is never later than the earliest active timeout |
| `ClockRuns.FinishLateIff` | packages/ti/sysbios/knl/Clock.c:514-529 | the end of a service sets the timer interrupt too late exactly when ~0 is a real distance and the lag plus maxSkippable exceeds it |
| `ClockRuns.StartLateIff` | packages/ti/sysbios/knl/Clock.c:692-704 | a start leaves the interrupt too late for the new timeout exactly when that timeout lies between the recorded next tick and the interrupt |
| `ClockRuns.NeverLate` | packages/ti/sysbios/knl/Clock.c:514-533 | over whole runs without a step of these two kinds, the timer interrupt comes no later than any active timeout at every point between services |
| `ClockRuns.LateInterrupt` | packages/ti/sysbios/knl/Clock.c:692-704 | a run in which that happens |
| `ClockRuns.FinishExact` | packages/ti/sysbios/knl/Clock.c:508-533 | the interrupt is set for an active timeout itself or as far ahead as the timer goes, and the next tick is recorded as much earlier as the service lagged behind |
| `ClockPeriods.WalkEffects` | packages/ti/sysbios/knl/Clock.c:405-425 | a walk calls an object exactly at its due tick; one with period 0 is then off, one with period p on and due p later; nobody else changes, and calls come in queue order |
| `ClockPeriods.Starts` | packages/ti/sysbios/knl/Clock.c:661-690 | a started object is on and due its timeout after the time of the start |
| `ClockPeriods.Stops` | packages/ti/sysbios/knl/Clock.c:751-759 | a stopped one is off |
| `ClockPeriods.PeriodicCalls` | packages/ti/sysbios/knl/Clock.c:405-533 | over runs: an object started at t with timeout d and period p, and neither stopped nor started again, is called at exactly t + d, t + d + p and so on, once each, as far as services have come; with period 0 once |
| `TaskScheduler.DispatchedDeserves` | packages/ti/sysbios/knl/Task.c:95-162 | when workFlag is clear the running task is the FIFO head of the highest non-empty ready queue |
| `TaskScheduler.BlockGood` | packages/ti/sysbios/knl/Task.c:1362-1373 | blocking keeps index, cache and queues in agreement |
| `TaskScheduler.UnblockGood` | packages/ti/sysbios/knl/Task.c:1413-1417 | and so does unblocking |
| `TaskScheduler.SetPriGood` | packages/ti/sysbios/knl/Task.c:1226-1274 | and a change of priority, of whichever task, to whichever priority |
| `TaskScheduler.YieldGood` | packages/ti/sysbios/knl/Task.c:686-692 | and a yield |
| `TaskScheduler.DeleteGood` | packages/ti/sysbios/knl/Task.c:1017-1024 | and the deletion of a task that is not running |
| `TaskScheduler.CreateGood` | packages/ti/sysbios/knl/Task.c:959-974 | and a creation |
| `TaskScheduler.PassGood` | packages/ti/sysbios/knl/Task.c:95-112 | and a pass of the scheduler, after which no work is pending |
| `TaskScheduler.RunningDeserves` | packages/ti/sysbios/knl/Task.c:95-162 | so in every run, whenever Task_schedule can end, the running task is the one that should run |
| `TaskScheduler.UnblockPreempts` | packages/ti/sysbios/knl/Task.c:1413-1417 | a task made ready preempts the running one exactly if its priority is higher |
| `TaskScheduler.YieldRotates` | packages/ti/sysbios/knl/Task.c:686-692 | after a yield the next task of the same priority runs and the yielding one is last |
| `TaskScheduler.SetPriKeepsRunning` | packages/ti/sysbios/knl/Task.c:1252-1257 | changing its own priority a task keeps the processor unless a ready task now has a higher one |
| `TaskEffects.SetPriMoves` | packages/ti/sysbios/knl/Task.c:1226-1274 | a change of priority changes that of one task and nothing else about tasks; a ready task moves to the end of the queue of its new priority, the running one to its head, and all other tasks keep their order |
| `TaskEffects.SetPriPreempts` | packages/ti/sysbios/knl/Task.c:1244-1274 | from any settled state, a ready task whose priority is changed preempts the running one exactly if the new priority is above that one's |
| `TaskEffects.SetPriGivesWay` | packages/ti/sysbios/knl/Task.c:1244-1274 | a running task that changes its own priority gives way exactly if a ready task is above the new one |
| `TaskEffects.BlockMoves` | packages/ti/sysbios/knl/Task.c:1362-1373 | blocking takes one task out of its queue |
| `TaskEffects.UnblockMoves` | packages/ti/sysbios/knl/Task.c:1413-1417 | unblocking puts it last in the queue of its priority |
| `TaskEffects.YieldMoves` | packages/ti/sysbios/knl/Task.c:686-692 | a yield moves the running task from the head of its queue to its end |
| `TaskEffects.CreateMoves` | packages/ti/sysbios/knl/Task.c:959-974 | a new task is ready and last of its queue |
| `TaskEffects.DeleteMoves` | packages/ti/sysbios/knl/Task.c:1017-1024 | a deleted task is in no queue, and the others keep their order |
| `TaskEffects.ExitMoves` | packages/ti/sysbios/knl/Task.c:541-543 | and so for one that exits |
| `TaskCode.TaskModule.BlockI` | packages/ti/sysbios/knl/Task.c:1346-1374 | Task_blockI is the step |
| `TaskCode.TaskModule.UnblockI` | packages/ti/sysbios/knl/Task.c:1398-1417 | Task_unblockI is the step |
| `TaskCode.TaskModule.SetPri` | packages/ti/sysbios/knl/Task.c:1208-1280 | Task_setPri is the step |
| `TaskCode.TaskModule.Yield` | packages/ti/sysbios/knl/Task.c:679-692 | Task_yield is the step |
| `TaskCode.TaskModule.Delete` | packages/ti/sysbios/knl/Task.c:1017-1024 | the ready-list part of a deletion |
| `TaskCode.TaskModule.Schedule` | packages/ti/sysbios/knl/Task.c:95-162 | with interrupts that ready tasks or change priorities between its passes, the loop goes on while they leave work and ends with the task that should run |
| `SwiScheduler.PostGood` | packages/ti/sysbios/knl/Swi.c:650-667 | posting keeps: posted is queued, the bitmap is the non-empty levels |
| `SwiScheduler.DispatchGood` | packages/ti/sysbios/knl/Swi.c:172-180 | a dispatch takes the FIFO head of the highest level |
| `SwiScheduler.EndGood` | packages/ti/sysbios/knl/Swi.c:130-140 | the end of a Swi and the rest of the loop keep the invariant |
| `SwiScheduler.EndPicksHead` | packages/ti/sysbios/knl/Swi.c:180-189 | after a Swi ends, either the head of the highest level above the entry level runs, or nothing above it is ready and everything saved is restored |
| `SwiScheduler.PreemptionUndone` | packages/ti/sysbios/knl/Swi.c:81-140 | over runs: when for the first time since a preemption as many Swis run as before it, they are the same ones, at the same level and with the same trigger, whatever was posted, nested or triggered in between |
| `SwiScheduler.PostedMeansQueued` | packages/ti/sysbios/knl/Swi.c:650-667 | at every point with interrupts enabled posted means queued |
| `SwiScheduler.DepthBounded` | packages/ti/sysbios/knl/Swi.c:172-189 | running Swis have strictly increasing priorities |
| `SwiScheduler.NestingBounded` | packages/ti/sysbios/knl/Swi.c:172-189 | no more Swis are nested than there are levels |
| `SwiScheduler.NothingReadyAbove` | packages/ti/sysbios/knl/Swi.c:202-243 | while the scheduler is unlocked nothing above the running Swi is posted |
| `SwiScheduler.RunInPostOrder` | packages/ti/sysbios/knl/Swi.c:83-180 | over runs: within a level Swis run in the order they were posted, once for each post that found them unposted |
| `SwiScheduler.AllPostsRun` | packages/ti/sysbios/knl/Swi.c:172-189 | when the scheduler is unlocked and no Swi runs, every such post has had its run |
| `SwiScheduler.StartTakesTrigger` | packages/ti/sysbios/knl/Swi.c:83-104 | the Swi that starts sees the trigger it was posted with, which is set back for the next post |
| `SwiScheduler.PostOnlyPosts` | packages/ti/sysbios/knl/Swi.c:650-667 | a post changes nothing but its Swi's posting, and nothing at all if it was posted |
| `SwiCode.SwiModule.Post` | packages/ti/sysbios/knl/Swi.c:639-667 | Swi_post up to Swi_schedule |
| `SwiCode.SwiModule.RunEnter` | packages/ti/sysbios/knl/Swi.c:81-104 | the first half of Swi_run |
| `SwiCode.SwiModule.LoopTest` | packages/ti/sysbios/knl/Swi.c:172-189 | one test of the run loop |
| `SwiCode.SwiModule.RunLeave` | packages/ti/sysbios/knl/Swi.c:130-140 | the second half of Swi_run and the next test |
| `Bitmap.MaxBit` | packages/ti/sysbios/knl/Task.c:104-105 | the highest set bit |
| `QueueRing.CutUndoesPut` | packages/ti/sysbios/knl/Queue.c:161-172 | putting an element in and cutting it out gives back the ring |
| `QueueRing.Insert` | packages/ti/sysbios/knl/Queue.c:161-172 | insertion before any element |
| `QueueRing.Remove` | packages/ti/sysbios/knl/Queue.c:230-242 | removal at any position |
| `QueueRing.Enqueue` | packages/ti/sysbios/knl/Queue.c:84-94 | an element goes to the tail |
| `QueueRing.Dequeue` | packages/ti/sysbios/knl/Queue.c:58-69 | the head, or the header itself if the queue is empty |
| `QueueRing.Empty` | packages/ti/sysbios/knl/Queue.c:75-78 | empty exactly if there is no element |
| `QueueRing.Walk` | packages/ti/sysbios/knl/Queue.c:143-180 | head and next visit the queue in order |
| `PthreadKey.OneFiniteMap` | packages/ti/posix/tirtos/pthread_key.c:237-269 | the records on their two rings are one finite map from thread and key to value |
| `PthreadKey.DropValid` | packages/ti/posix/tirtos/pthread_key.c:304-323 | unlinking a record from both rings takes exactly its entry |
| `PthreadKey.LinkValid` | packages/ti/posix/tirtos/pthread_key.c:252-269 | linking a record on both rings adds exactly its entry |
| `PthreadKey.ThreadEndCalls` | packages/ti/posix/tirtos/pthread_key.c:317-320 | a destructor is called with a value exactly if that is the thread's non-null entry for the key |
| `PthreadKey.CallsOnce` | packages/ti/posix/tirtos/pthread_key.c:304-323 | no key's destructor is called twice |
| `PthreadKey.LinkedLast` | packages/ti/posix/tirtos/pthread_key.c:262-268 | a value set under a new key has its destructor called after those of the keys the thread has |
| `PthreadKey.Keys.Create` | packages/ti/posix/tirtos/pthread_key.c:104-132 | a new key has no entries |
| `PthreadKey.Keys.GetSpecific` | packages/ti/posix/tirtos/pthread_key.c:172-208 | what the map has for the calling thread and the key, NULL if nothing |
| `PthreadKey.Keys.SetSpecific` | packages/ti/posix/tirtos/pthread_key.c:214-277 | the map with that entry updated; ENOMEM, only for a new entry, changes nothing |
| `PthreadKey.Keys.Delete` | packages/ti/posix/tirtos/pthread_key.c:138-166 | the map without the key |
| `PthreadKey.Keys.RemoveThread` | packages/ti/posix/tirtos/pthread_key.c:285-326 | the map without the thread, and the destructors called in the order of its ring |
| `PriorityQueue.Place` | packages/ti/sysbios/knl/Semaphore.c:248-260 | where the insertion loop stops |
| `PriorityQueue.InsertedOrdered` | packages/ti/sysbios/knl/Semaphore.c:248-263 | the queue stays sorted by priority and FIFO among equals |
| `PriorityQueue.WithoutOrdered` | packages/ti/sysbios/knl/Semaphore.c:157 | a time-out keeps the order |
| `PriorityQueue.HeadFirst` | packages/ti/sysbios/knl/Semaphore.c:369 | the head precedes every other waiter |
| `Semaphore.PendGood` | packages/ti/sysbios/knl/Semaphore.c:213-280 | a pend keeps the invariant |
| `Semaphore.PostGood` | packages/ti/sysbios/knl/Semaphore.c:347-382 | and so does a post |
| `Semaphore.PendTimeoutGood` | packages/ti/sysbios/knl/Semaphore.c:145-170 | and a time-out, whenever the clock makes it |
| `Semaphore.CountsAddUp` | packages/ti/sysbios/knl/Semaphore.c:213-382 | in counting mode the initial count plus posts is the count plus grants, and a positive count means nobody waits |
| `Semaphore.BlockedAddUp` | packages/ti/sysbios/knl/Semaphore.c:280-301 | every pend that blocked waits, was handed a unit, or timed out |
| `Semaphore.ResolvedOnce` | packages/ti/sysbios/knl/Semaphore.c:145-302 | over runs: between its blocking and its return a pend is resolved by exactly one step, a post that finds it first in the queue or its own clock call, under any race; it returns TRUE exactly if that was the post |
| `Semaphore.PostServesFirst` | packages/ti/sysbios/knl/Semaphore.c:368-380 | a post serves the waiter of highest priority that came first, or the one that came first |
| `Semaphore.PendAnswers` | packages/ti/sysbios/knl/Semaphore.c:213-322 | a pend answers TRUE exactly if there was a unit, of which it took one; FALSE exactly if there was none and it does not wait; else it waits, with or without a clock as asked |
| `Semaphore.PostEffects` | packages/ti/sysbios/knl/Semaphore.c:347-382 | a post wakes the head of the queue, or leaves one unit in binary mode and one more in counting mode |
| `Semaphore.TimeoutEffects` | packages/ti/sysbios/knl/Semaphore.c:145-170 | the clock takes off the queue exactly a pend that waits with a time-out |
| `Semaphore.UnitsInRuns` | packages/ti/sysbios/knl/Semaphore.c:213-382 | over runs in counting mode: the initial count and the posts are the count, the calls that returned TRUE, and the pends handed a unit that have yet to return |
| `Semaphore.SemaphoreObject.Pend` | packages/ti/sysbios/knl/Semaphore.c:176-280 | Semaphore_pend is the step |
| `Semaphore.SemaphoreObject.Post` | packages/ti/sysbios/knl/Semaphore.c:330-385 | Semaphore_post is the step; the overflow assertion |
| `Semaphore.SemaphoreObject.PendTimeout` | packages/ti/sysbios/knl/Semaphore.c:145-170 | Semaphore_pendTimeout is the step |
| `GateMutexPri.EnterGood` | packages/ti/sysbios/gates/GateMutexPri.c:127-178 | an enter keeps the queue sorted and the owner at the maximum |
| `GateMutexPri.LeaveGood` | packages/ti/sysbios/gates/GateMutexPri.c:223-262 | a leave restores the original priority and hands over to a waiter none of the others outranks |
| `GateMutexPri.OwnerRunsAtMaximum` | packages/ti/sysbios/gates/GateMutexPri.c:168-175 | in every reachable state the owner runs at exactly the maximum of its original priority and all the waiters', and everybody else at the original one |
| `GateMutexPri.EnterAnswers` | packages/ti/sysbios/gates/GateMutexPri.c:127-178 | the key says what the enter did: FIRST_ENTER exactly if the gate was free and is the task's now, NESTED_ENTER exactly if it was already and nothing changed; else the task waits |
| `GateMutexPri.LeaveEffects` | packages/ti/sysbios/gates/GateMutexPri.c:223-262 | a nested leave does nothing; the outermost frees the gate exactly if nobody waits and else hands it to one who no longer does, and everybody is back at the original priority |
| `GateMutexPri.HeldUntilLeft` | packages/ti/sysbios/gates/GateMutexPri.c:127-262 | over runs: the owner keeps the gate until its outermost leave |
| `GateMutexPri.Gate.InsertPri` | packages/ti/sysbios/gates/GateMutexPri.c:279-300 | the insertion loop |
| `GateMutexPri.Gate.Enter` | packages/ti/sysbios/gates/GateMutexPri.c:92-187 | GateMutexPri_enter is the step |
| `GateMutexPri.Gate.Leave` | packages/ti/sysbios/gates/GateMutexPri.c:193-263 | GateMutexPri_leave is the step |
| `Mailbox.GetGood` | packages/ti/sysbios/knl/Mailbox.c:243-245 | a reader with a unit finds an element and takes the next message in order |
| `Mailbox.DequeueGood` | packages/ti/sysbios/knl/Mailbox.c:289-306 | a writer with a unit finds a free element: the branch for an empty queue is never taken |
| `Mailbox.PutDataGood` | packages/ti/sysbios/knl/Mailbox.c:312-323 | enqueueing and posting keep units and queue lengths in step |
| `Mailbox.ElementsConserved` | packages/ti/sysbios/knl/Mailbox.c:243-325 | elements free, holding data and in hand sum to numMsgs; units match queue lengths up to the threads in flight; numFreeMsgs is right |
| `Mailbox.NeverEmpty` | packages/ti/sysbios/knl/Mailbox.c:294-300 | neither queue is ever found empty by a thread with a unit |
| `Mailbox.FifoDelivery` | packages/ti/sysbios/knl/Mailbox.c:243-249 | messages are delivered in the order they were sent, each reader getting the one it took |
| `Mailbox.OwnMessage` | packages/ti/sysbios/knl/Mailbox.c:276-325 | over runs: a Mailbox_post that enqueues sends exactly the message it was called with, however long it waited |
| `Mailbox.Delivered` | packages/ti/sysbios/knl/Mailbox.c:230-325 | end to end: the pend that takes the n-th message gives its caller what the post that sent the n-th was called with |
| `Mailbox.PendAnswers` | packages/ti/sysbios/knl/Mailbox.c:242-290 | a call gets a unit, waits, or is refused with nothing changed: a pend exactly if every message queued is spoken for, a post exactly if no element is free that is not |
| `Mailbox.BlockedStep` | packages/ti/sysbios/knl/Mailbox.c:242-319 | a blocked call waits until a post serves it, with the message it came with, or it times out |
| `Mailbox.MailboxObject.constructor` | packages/ti/sysbios/knl/Mailbox.c:335-361 | every element starts on the free queue |
| `Mailbox.MailboxObject.Pend` | packages/ti/sysbios/knl/Mailbox.c:230-271 | without waiting: the oldest message, or false exactly if there is none |
| `Mailbox.MailboxObject.Post` | packages/ti/sysbios/knl/Mailbox.c:276-330 | without waiting: the message goes in last, or false exactly if the mailbox is full |
| `SecondsClock.ClosedForm` | packages/ti/sysbios/hal/SecondsClock.c:170-204 | after N increments seconds is N + c1Inc * (N/c1 - N/c1/c2) modulo 2^32, and the two counters are remainders |
| `SecondsClock.UncorrectedGap` | packages/ti/sysbios/hal/SecondsClock.c:119-131 | a drift beyond the frequency is not corrected: the error is all of it |
| `SecondsClock.GapOneLevel` | packages/ti/sysbios/hal/SecondsClock.c:119-131 | with c2 zero the error stays below one second for ever |
| `SecondsClock.GapTwoLevels` | packages/ti/sysbios/hal/SecondsClock.c:119-131 | with both levels the error stays below one second plus d3 timer counts for each N/c1/c2 |
| `Arithmetic.DivTwice` | packages/ti/sysbios/hal/SecondsClock.c:170-204 | N/c1/c2 is N/(c1*c2) |
| `SecondsClock.TotalAdvancesIff` | packages/ti/sysbios/hal/SecondsClock.c:170-204 | secondsHi and seconds advance as one 64-bit count except in exactly two cases of an adjustment at a wrap |
| `SecondsClock.AdvanceFails` | packages/ti/sysbios/hal/SecondsClock.c:170-204 | both cases are reached whatever the correction: c1 - 1 increments, a time set just before the wrap, and one increment that goes 2^32 seconds wrong |
| `SecondsClock.SetTimeNotBehind` | packages/ti/sysbios/hal/SecondsClock.c:240-251 | the time read right after it was set is not behind, and less than a tick ahead |
| `SecondsClock.SetTimeReadsIff` | packages/ti/sysbios/hal/SecondsClock.c:228-251 | the time read at the tick it was set at is the time set, rounded up by less than a tick, if and only if the nanoseconds carry nothing out of the lower word |
| `SecondsClock.SetTimeReachesSecond` | packages/ti/sysbios/hal/SecondsClock.c:253-259 | for every tick period: with a period of one second the branch marked as not happening is taken exactly for times beyond all but one of the ticks of the second; on a tick that divides the second, the time read back then has a whole second of nanoseconds |
| `SecondsClock.Module.constructor` | packages/ti/sysbios/hal/SecondsClock.c:119-131 | the drift constants |
| `SecondsClock.Module.Increment` | packages/ti/sysbios/hal/SecondsClock.c:170-204 | SecondsClock_increment is the step |
| `SecondsClock.Module.GetTime` | packages/ti/sysbios/hal/SecondsClock.c:149-164 | SecondsClock_getTime |
| `SecondsClock.Module.SetTime` | packages/ti/sysbios/hal/SecondsClock.c:217-259 | SecondsClock_setTime |
| `HeapBuf.BlockFacts` | packages/ti/sysbios/heaps/HeapBuf.c:171-174 | blocks lie inside the pool, aligned, and do not overlap |
| `HeapBuf.AllocValid` | packages/ti/sysbios/heaps/HeapBuf.c:234-264 | an allocated block is one of the pool that was free |
| `HeapBuf.FreeValid` | packages/ti/sysbios/heaps/HeapBuf.c:281-304 | freeing a block that is not free: the source assertions hold |
| `HeapBuf.FreeUndoesAlloc` | packages/ti/sysbios/heaps/HeapBuf.c:223-304 | alloc and free give back the same free blocks |
| `HeapBuf.FirstFreedFirstUsed` | packages/ti/sysbios/heaps/HeapBuf.c:241-302 | over runs: blocks are handed out in the order they became free |
| `HeapBuf.LowestInRuns` | packages/ti/sysbios/heaps/HeapBuf.c:255-262 | with allocations tracked, minFreeBlocks is the least number of free blocks there has been after an allocation |
| `HeapBuf.HeapBufObject.constructor` | packages/ti/sysbios/heaps/HeapBuf.c:150-175 | the buffer cut into blocks, in address order |
| `HeapBuf.HeapBufObject.Alloc` | packages/ti/sysbios/heaps/HeapBuf.c:223-268 | HeapBuf_alloc |
| `HeapBuf.HeapBufObject.Free` | packages/ti/sysbios/heaps/HeapBuf.c:274-304 | HeapBuf_free |
| `HeapMultiBuf.CompareRightIff` | packages/ti/sysbios/heaps/HeapMultiBuf.c:313-318 | the comparison of end addresses is right exactly within 2^31 |
| `HeapMultiBuf.SizeAlignRight` | packages/ti/sysbios/heaps/HeapMultiBuf.c:325-340 | the comparison of sizes and alignments is right below 2^31 |
| `HeapMultiBuf.RoutesRightIff` | packages/ti/sysbios/heaps/HeapMultiBuf.c:379-392 | for pools anywhere in memory, in an array whose neighbours are ordered by the comparison, every block is routed to its own pool if and only if the last addresses of neighbours are within 2^31 of each other |
| `HeapMultiBuf.SortedRoutesRightIff` | packages/ti/sysbios/heaps/HeapMultiBuf.c:313-318 | with every two entries ordered by the comparison, the same holds if and only if every two are within 2^31 |
| `HeapMultiBuf.FarPoolsMisroute` | packages/ti/sysbios/heaps/HeapMultiBuf.c:313-318 | pools further apart are sorted wrongly, and a block is freed to the wrong one |
| `HeapMultiBuf.BorrowServes` | packages/ti/sysbios/heaps/HeapMultiBuf.c:346-367 | borrowing finds a block exactly if some later pool of the alignment has one |
| `HeapMultiBuf.AllocOwnClass` | packages/ti/sysbios/heaps/HeapMultiBuf.c:263-298 | without borrowing exactly the pools of the first fitting size and alignment are tried |
| `HeapMultiBuf.AllocServes` | packages/ti/sysbios/heaps/HeapMultiBuf.c:241-306 | alloc yields NULL exactly if every fitting pool is empty, with borrowing, or every pool of the first fitting class, without |
| `HeapMultiBuf.BorrowingExhausts` | packages/ti/sysbios/heaps/HeapMultiBuf.c:346-367 | with borrowing NULL means that no pool at all can serve the request |
| `HeapMultiBuf.AllocGood` | packages/ti/sysbios/heaps/HeapMultiBuf.c:241-306 | what alloc hands out was not live |
| `HeapMultiBuf.FreeRoutes` | packages/ti/sysbios/heaps/HeapMultiBuf.c:379-392 | a live block, borrowed or not, is routed to the pool it came from |
| `HeapMultiBuf.FreeGood` | packages/ti/sysbios/heaps/HeapMultiBuf.c:379-392 | freeing it is correct for all pools |
| `HeapMultiBuf.HeapMultiBufObject.Alloc` | packages/ti/sysbios/heaps/HeapMultiBuf.c:241-306 | the loop of HeapMultiBuf_alloc |
| `HeapMultiBuf.HeapMultiBufObject.BorrowBlock` | packages/ti/sysbios/heaps/HeapMultiBuf.c:346-367 | the loop of HeapMultiBuf_borrowBlock |
| `HeapMultiBuf.HeapMultiBufObject.Free` | packages/ti/sysbios/heaps/HeapMultiBuf.c:379-396 | the loop of HeapMultiBuf_free |
| `MonotonicClock.RolloverIs` | packages/ti/posix/tirtos/clock.c:84-103 | a rollover is MAX_SECONDS seconds and REM_TICKS ticks |
| `MonotonicClock.SampleExactIff` | packages/ti/posix/tirtos/clock.c:311-322 | a sample is right exactly if fewer than 2^32 ticks have passed since the last |
| `MonotonicClock.SampledExact` | packages/ti/posix/tirtos/clock.c:311-322 | with samples close enough the count is the true tick count at each |
| `MonotonicClock.GetTimeRightIff` | packages/ti/posix/tirtos/clock.c:161-173 | while the seconds fit in 32 bits, the time is exactly quotient and remainder by TICKS_PER_SEC if and only if the remainder sum fits too |
| `MonotonicClock.NanosecondsBelow` | packages/ti/posix/tirtos/clock.c:169-173 | nanoseconds stay below one second |
| `MonotonicClock.Monotonic` | packages/ti/posix/tirtos/clock.c:116-177 | time never goes backwards |
| `MonotonicClock.ClockTime.GetClockTicks` | packages/ti/posix/tirtos/clock.c:311-322 | getClockTicks is the sample |
| `MonotonicClock.ClockTime.ClockGetTime` | packages/ti/posix/tirtos/clock.c:144-173 | clock_gettime(CLOCK_MONOTONIC) |

## Left out

- HeapMem.Heap.Alloc: the requests that the code answers wrongly by AnswerRightIff are left out, as what it does to the headers
  then is not modelled; the alignment is a nonzero power of two, for which masking is the remainder.
- HeapMem.Heap.Free: only live blocks with their own size are freed, as the source demands; double frees are not modelled.
- HeapMem.Heap.constructor: starts from a buffer that is already aligned and trimmed; HeapMem_Instance_init's own trimming is left out.
- HeapMultiBuf.AllocServes: qsort is known by its contract, the sorted arrays; the merging of static pools is left out.
- PriorityWithdrawal.PosixPriorityInEveryRun: holds for runs in which the ceilings suffice wherever a boost is taken back; for
  an unlock (UnlockKeeps), and for a withdrawal along a chain that ends (ResetRestoresIff), this is also necessary; on a cycle
  only for each round (RoundKeeps).
- WithdrawalCycles.ResetEndsIff: for states with the right priorities, as all states of such runs are.
- ClockRuns.EveryTimeoutOnItsTick: handlers do not touch clock objects, no event comes 2^32 ticks after the last serviced
  tick, and a start while the next tick is overdue does not reach round to it.
- ClockCode.ClockModule.WorkFuncDynamic: starts during a service are steps of ClockRuns, not of this method; a walk is one step.
- TaskCode.TaskModule.Schedule: a task is ready when it is called; the loop that waits for the first one is left out.
- RwLockTimes.TimeoutIsTotal: fewer than 2^32 ticks pass between two readings of the counter by a blocked reader.
- RwLockCode.Lock.Unlock: no pend expires during its posts; expiries between them are steps of RwLock.
- Semaphore.CountsAddUp: Semaphore_reset, and priority changes of waiters, are excluded, as they break the invariants; event
  objects are left out.
- Mailbox.MailboxObject.Pend: one thread at a time and without waiting; any number of threads are the steps of Mailbox.
- GateMutexPri.OwnerRunsAtMaximum: one gate, whose waiters' priorities only it changes and which are not deleted.
- MonotonicClock.Monotonic: samples less than 2^32 ticks apart and times that fit, which the module's own clock object is for.
- PthreadKey.Keys.RemoveThread: destructors are recorded, not run; one that called back would wait for the semaphore held.
  Rings are sequences here; that the pointer updates are the sequence operations is proved in QueueRing.
- Clock_stop with stopCheckNext, which starts a clock of its own; it is off unless configured.
- Swi_raisePri, Swi_restorePri, and Swi_setPri or Swi_setAttrs on a posted Swi, which break the invariants.
- pthread_setschedparam, pthread_mutex_setprioceiling, thread cancellation, and deletion of tasks that wait for a gate.
- Priorities are those of one core: the SMP variants are left out, and so are hooks, logging, stack checks, memory
  protection, hardware timers and context switches. A switch is a change of curTask.
- Barriers, condition variables, GIO and IOM devices, loggers, the other gates and the null modules.
