# Operating-system labs: a verified model

The labs hold six small algorithmic cores. Each is modelled here in the form the C code
has (arrays, linked nodes and shared fields updated in place), together with functions on
sequences that say what the code is for, and theorems about those functions over every
input, every run and every interleaving.

| files | what they model |
|---|---|
| `FilterLock.dfy`, `PetersonShm.dfy`, `PetersonProgram.dfy` | N writers and N readers behind two Peterson filter locks, handing messages over through one mailbox |
| `BoundedBuffer.dfy`, `BufferSafety.dfy`, `BufferCompletion.dfy`, `BufferFailures.dfy`, `BufferProgram.dfy` | producers and consumers around a ring with two counting semaphores and a mutex, and their shutdown |
| `PagePolicies.dfy`, `PageReplacement.dfy`, `MatrixLRU.dfy`, `SecondChance.dfy`, `ClockFrames.dfy` | FIFO, stack LRU, matrix LRU and second chance |
| `DiskPaths.dfy`, `ShortestSeek.dfy`, `ElevatorSeek.dfy`, `CircularSeek.dfy` | the six disk-arm schedules |
| `ReadyOrder.dfy`, `ReadyQueue.dfy`, `ShortestJob.dfy` | the scheduler's ready queue and its five insertion policies |
| `HeapOrder.dfy`, `StudentHeap.dfy` | the array heap of students with its stack of free slots |
| `Collections.dfy` | finite sets and duplicate-free sequences |

`dafny verify dfyconfig.toml` checks the whole project.

## How to read it

Threads. A thread's program counter says which shared access it makes next; a step is one
access (one read or one write of a shared word, or one semaphore operation), and a run is
any sequence of thread names. The scan over the other threads' levels is one read a step.
Accesses are atomic and seen by all threads in one order. The increment and the decrement
of `counter` are one access each.

Methods. A method that works on arrays or on linked nodes has a contract that ties the new
contents to a function on sequences; the lemmas are about that function. A method may hold
a part of a C function (one round of a loop, one direction of a sweep) where that keeps its
proof small. Stops and hits that the C code prints are returned.

Preconditions are those of the C code: at least one frame and pages that are not negative
(below the number of references for the matrix, which has that many rows); for the SCAN
family at least one request, and head and requests on the disk; a free slot before a record
is stored; for the heap push and removal, which write to `list[head]`, a `head` inside the
array, and for the removal links of slot 0 that are -1 or inside the array.

## Where the code does not do what it is meant to do

These are kept as they are, with the exact condition and a concrete input.

- The counter check of `peterson_shm.c` (101-104, 174-177) kills the process in a run in which
  exclusion was never violated, because `written` is published before `counter--`:
  `PetersonShm.CheckKills`, `PetersonShm.Overtaken`, `PetersonShm.KilledRun`.
- The consumer guard (`alg.18-8-syn-pc-consumer-6.c:27`) reads three fields without the mutex.
  Read one by one, they let consumers leave before the last item, and a producer that is past
  its own guard can then wait for a slot for ever. Which ends are complete:
  `BufferCompletion.CompleteIff`. Which configurations can fail, and how:
  `BufferFailures.AlwaysCompleteIff`, `BufferFailures.CanHangIff`. Concrete runs:
  `BufferFailures.SplitGuardLosesItem`, `BufferFailures.SplitGuardHangs`. The configuration field
  `atomicGuard` says how the guard is read; safety, the bound on runs and the states they can end
  in are proved for both ways.
- Second chance (`replaceAlg.c:210`) reads the bit behind the last frame when the pointer stands
  there. What that cell holds is a parameter of each step: `SecondChance.CodeFollowsPolicy`,
  `SecondChance.RunIsPolicyIff`, `SecondChance.OverrunHappens`.
- Outward C-SCAN (`diskSchedule.c:196-206`) does not move the arm to 0 when a request lies there:
  `CircularSeek.CSCAN`, `CircularSeek.OverlookedIff`, `CircularSeek.CScanNegative`.
- Outward C-SCAN tests `CylindReqList[n-1] != curCylinder - 1` (`diskSchedule.c:190`) where the
  number of cylinders is meant, so it can leave out the turn at the far end or stop there twice:
  `CircularSeek.OuterTurnIff`, `CircularSeek.TwiceAtEndIff`, `CircularSeek.OuterTurnOdd`.
- The preemptive priority push (`Scheduler.c:168`) steps one node too far:
  `ReadyOrder.PemPriorityRightIff`, `ReadyOrder.PemPriorityRunIff`, `ReadyOrder.PemPriorityFails`.
- `popHeap` (`LabWeek07/code/实验部分一.c:166-169`) stops after one exchange:
  `HeapOrder.RemovedHeapIff`, `HeapOrder.RemovalLosesLeast`.

## Model

| member | source | states |
|---|---|---|
| `FilterLock.StartInv` | LabWeek14/code/peterson_shm.c:64-66 | The state before any thread has taken a step satisfies the filter-lock invariant. |
| `FilterLock.AdvanceInv` | LabWeek14/code/peterson_shm.c:64-86 | Every single access of the filter (level write, waiting write, each read of the scan, the re-checks) by any thread keeps the invariant, the scan being one access per step. |
| `FilterLock.LeaveInv` | LabWeek14/code/peterson_shm.c:109 | Giving up the level keeps the invariant for all other threads. |
| `FilterLock.RoomHoldsOneBack` | LabWeek14/code/peterson_shm.c:68-85 | In every room either at most one thread has passed or some thread that entered has not passed. |
| `FilterLock.PassedBound` | LabWeek14/code/peterson_shm.c:64-86 | For every number of threads n at most max(1, n-1-r) threads have passed room r. |
| `FilterLock.MutualExclusion` | LabWeek14/code/peterson_shm.c:87-109 | Two threads past the filter and before giving up their level are the same thread. |
| `FilterLock.SomeoneFree` | LabWeek14/code/peterson_shm.c:68-85 | While any thread has not exited, some thread is not held in a waiting room: the filter cannot deadlock. |
| `FilterLock.AdvanceProgress` | LabWeek14/code/peterson_shm.c:68-85 | A filter access either moves its thread to a later stage, or spends one of a bounded number of spins of a free thread, or is a spin of a thread that is held. |
| `PetersonShm.InitInv` | LabWeek14/code/peterson_shm.c:196-249 | Empty levels and waiting rooms and written == 0 satisfy the invariant of the whole program. |
| `PetersonShm.StepInv` | LabWeek14/code/peterson_shm.c:64-181 | Every step of every writer and reader keeps the invariant: both filters, the mailbox, the message record and the counter. |
| `PetersonShm.RoomBound` | LabWeek14/code/peterson_shm.c:64-86 | In every run of n writers and n readers at most max(1, n-1-lev) writers, and as many readers, have passed room lev. |
| `PetersonShm.Exclusion` | LabWeek14/code/peterson_shm.c:88-109 | In every run at most one writer and at most one reader is past its filter, and a writer between its check of written and written = 1 never coexists with a reader between its check and written = 0. |
| `PetersonShm.PrefixDelivery` | LabWeek14/code/peterson_shm.c:88-95 | In every run the messages read are a prefix of the messages written, at most one behind, and no thread writes or reads twice. |
| `PetersonShm.CheckKills` | LabWeek14/code/peterson_shm.c:101-104 | A thread at the counter check kills the process exactly when a thread of the other kind stands between its counter++ and counter--. |
| `PetersonShm.Overtaken` | LabWeek14/code/peterson_shm.c:95-106 | Whenever a writer stands at its counter check with the message published and a reader waits for it, three more steps kill the process. |
| `PetersonShm.KilledRun` | LabWeek14/code/peterson_shm.c:101-104 | A concrete run of one writer and one reader that ends in the kill, although both stayed exclusive. |
| `PetersonShm.NoDeadlock` | LabWeek14/code/peterson_shm.c:64-181 | In every state that satisfies the invariant and has an unfinished thread, some thread is neither held by its filter nor waiting for written. |
| `PetersonShm.ExitedDelivered` | LabWeek14/code/peterson_shm.c:88-109 | When all threads have exited, the sequence read is the sequence written, each writer once and each reader once, and the mailbox and the counter are back to 0. |
| `PetersonShm.FairProgress` | LabWeek14/code/peterson_shm.c:64-181 | Any 2n+1 fair rounds from an unfinished state either kill the process or advance the stage of some thread for good. |
| `PetersonShm.FairTermination` | LabWeek14/code/peterson_shm.c:64-184 | Every schedule with enough rounds in which each thread takes a step ends killed or with all threads exited and all n messages delivered in the order written. |
| `PetersonProgram.FilterAccess` | LabWeek14/code/peterson_shm.c:64-86 | The access made in place on the level and waiting arrays changes them as the step of the filter model does. |
| `PetersonProgram.SharedMemory.constructor` | LabWeek14/code/peterson_shm.c:196-249 | The arrays filled with -1 and written = 0 are the initial state of the model. |
| `PetersonProgram.SharedMemory.WriterAccess` | LabWeek14/code/peterson_shm.c:43-113 | One access of a writer to the shared arrays and fields is the writer step of the model. |
| `PetersonProgram.SharedMemory.ReaderAccess` | LabWeek14/code/peterson_shm.c:114-185 | One access of a reader to the shared arrays and fields is the reader step of the model. |
| `PetersonProgram.SharedMemory.Execute` | LabWeek14/code/peterson_shm.c:64-181 | One access of any thread is one step of the model. |
| `PetersonProgram.SharedMemory.Follow` | LabWeek14/code/peterson_shm.c:255-275 | Running the program on a schedule reaches the state the model reaches on it, so what is proved of runs holds of the arrays. |
| `BoundedBuffer.InitInv` | LabWeek15/code/alg.18-6-syn-pc-con-6.c:103-123 | The control block as set up satisfies the invariant. |
| `BufferSafety.StepInv` | LabWeek15/code/alg.18-7-syn-pc-producer-6.c:27-46 | Every step of any producer, consumer or of the main thread keeps the invariant: token counts, counters, positions and the contents of the ring. |
| `BoundedBuffer.SlotIsModulo` | LabWeek15/code/alg.18-7-syn-pc-producer-6.c:33 | The position of item i is i modulo the buffer size. |
| `BoundedBuffer.WindowStore` | LabWeek15/code/alg.18-7-syn-pc-producer-6.c:33-34 | Storing the next item while fewer than a buffer full are unread leaves every unread item in its slot: none is overwritten. |
| `BoundedBuffer.TokenMeansItem` | LabWeek15/code/alg.18-8-syn-pc-consumer-6.c:28-38 | A consumer that holds a token under the mutex finds an item, unless the tokens of the shutdown are out and every item is consumed. |
| `BufferSafety.InOrderExactlyOnce` | LabWeek15/code/alg.18-8-syn-pc-consumer-6.c:30-34 | In every run, guard split or not, the i-th item taken is item i, each once, and at most a buffer full is pending. |
| `BufferSafety.QuietTokens` | LabWeek15/code/alg.18-7-syn-pc-producer-6.c:28-44 | In every run, when no thread is between its waits and posts, emptyslot plus pending items is the buffer size and stock is pending items plus shutdown posts. |
| `BufferCompletion.ConsumedMeansEnded` | LabWeek15/code/alg.18-7-syn-pc-producer-6.c:37-38 | When the last item is consumed END_FLAG is set. |
| `BufferCompletion.EffectiveRun` | LabWeek15/code/alg.18-8-syn-pc-consumer-6.c:27-40 | With either way of reading the guard, each step of a run that is not a wait spends from a budget that no step adds to. |
| `BufferCompletion.StuckShape` | LabWeek15/code/alg.18-7-syn-pc-producer-6.c:27-46 | With either guard, where a run can go no further all consumers have left and all items are made; all producers have left too, or the ring is full and one of two producers or more waits for a slot. |
| `BufferCompletion.CompleteIff` | LabWeek15/code/alg.18-8-syn-pc-consumer-6.c:27 | With either guard, such an end is complete, all items consumed once and in order and all tokens back but the C-1 posts, exactly when some consumer left on the full count of items; with the guard read at once it always is. |
| `BufferCompletion.Completion` | LabWeek15/code/alg.18-7-syn-pc-producer-6.c:77-84 | With either guard no run takes more than 21 steps an item, 9 a producer and 13 or, in three reads, 15 a consumer, and where it can go no further it is complete exactly when some consumer left on the full count, which the guard read at once ensures. |
| `BufferFailures.AlwaysCompleteIff` | LabWeek15/code/alg.18-8-syn-pc-consumer-6.c:27 | A configuration completes in every run exactly if its guard is read at once. |
| `BufferFailures.CanHangIff` | LabWeek15/code/alg.18-8-syn-pc-consumer-6.c:27-28 | A configuration has a run that leaves a thread waiting for ever exactly if its guard is read in three steps, it has two producers or more, and no more slots than items. |
| `BufferFailures.LosesItem` | LabWeek15/code/alg.18-8-syn-pc-consumer-6.c:27 | Every configuration whose guard is read in three steps has a run in which all threads end and the last item is lost. |
| `BufferFailures.Hangs` | LabWeek15/code/alg.18-7-syn-pc-producer-6.c:27-28 | Every such configuration with two producers or more and no more slots than items has a run in which all consumers leave, the ring is full and a producer waits for a slot for ever. |
| `BufferFailures.SplitGuardLosesItem` | LabWeek15/code/alg.18-8-syn-pc-consumer-6.c:27 | A concrete run of one producer and one consumer that ends without the only item. |
| `BufferFailures.SplitGuardHangs` | LabWeek15/code/alg.18-8-syn-pc-consumer-6.c:27 | A concrete run of two producers and one consumer that hangs with the only item in the ring. |
| `BufferProgram.ControlBlock.constructor` | LabWeek15/code/alg.18-6-syn-pc-con-6.c:103-123 | The control block is set up as the initial state of the model. |
| `BufferProgram.ControlBlock.ProducerAccess` | LabWeek15/code/alg.18-7-syn-pc-producer-6.c:27-46 | One access of a producer to the block is one step of the model. |
| `BufferProgram.ControlBlock.ConsumerAccess` | LabWeek15/code/alg.18-8-syn-pc-consumer-6.c:27-40 | One access of a consumer to the block is one step of the model. |
| `BufferProgram.ControlBlock.Produce` | LabWeek15/code/alg.18-7-syn-pc-producer-6.c:27-46 | An access of a producer to the block is a step of the model and keeps its invariant. |
| `BufferProgram.ControlBlock.Consume` | LabWeek15/code/alg.18-8-syn-pc-consumer-6.c:27-40 | An access of a consumer to the block is a step of the model, keeps its invariant, and an item it reads is the next in order. |
| `BufferProgram.ControlBlock.ShutdownPosts` | LabWeek15/code/alg.18-7-syn-pc-producer-6.c:81-84 | The loop of C-1 posts is C-1 steps of the main thread. |
| `PagePolicies.LastUseMeaning` | LabWeek17/code/replaceAlg.c:67-103 | The last use of a page is an index at which it is referenced and after which it is not. |
| `PagePolicies.RecencySet` | LabWeek17/code/replaceAlg.c:67-103 | The recency list holds each referenced page exactly once. |
| `PagePolicies.RecencyIsByLastUse` | LabWeek17/code/replaceAlg.c:67-82 | The recency list is in the order of the last uses. |
| `PagePolicies.LruIsMostRecent` | LabWeek17/code/replaceAlg.c:67-103 | After any references the pages in memory under stack LRU are exactly the up to n most recently used, oldest first. |
| `PagePolicies.LruInclusion` | LabWeek17/code/replaceAlg.c:67-103 | What n frames hold more frames hold too, each hit stays a hit, and more frames never miss more. |
| `PagePolicies.FifoIsLastLoaded` | LabWeek17/code/replaceAlg.c:48-54 | FIFO holds the n pages loaded last, so it always evicts the longest resident. |
| `PagePolicies.LruWindow` | LabWeek17/code/replaceAlg.c:67-103 | After any references, a window with at most n different pages costs LRU at most one miss for each of them. |
| `PagePolicies.FifoWindow` | LabWeek17/code/replaceAlg.c:31-59 | After any references, a window with at most n different pages costs FIFO at most one miss for each of them. |
| `PagePolicies.LruIsLegal` | LabWeek17/code/replaceAlg.c:67-103 | LRU is itself one of the runs it is compared with, and its faults are its misses. |
| `PagePolicies.PhasesCost` | LabWeek17/code/replaceAlg.c:95-104 | Any choice of pages to evict faults at least once in each phase of n different pages. |
| `PagePolicies.LruCompetitive` | LabWeek17/code/replaceAlg.c:62-106 | Over every reference string LRU misses at most n times as often as any other choice of evictions with n frames. |
| `PagePolicies.FifoCompetitive` | LabWeek17/code/replaceAlg.c:27-60 | Over every reference string FIFO misses at most n times as often as any other choice of evictions with n frames. |
| `PageReplacement.VisitStackLRU` | LabWeek17/code/replaceAlg.c:67-105 | One reference on the array, by shifting, gives the array of the next LRU stack and says whether it hit. |
| `PageReplacement.ReplaceAlgStackLRU` | LabWeek17/code/replaceAlg.c:63-106 | The array loop reports the hits of LRU and leaves the LRU stack in memory, in order. |
| `PageReplacement.ReplaceAlgFIFO` | LabWeek17/code/replaceAlg.c:27-60 | The array loop with its rotating pointer reports the hits of the FIFO queue, leaves it in memory rotated, and changes one frame at a time. |
| `PageReplacement.VisitFIFO` | LabWeek17/code/replaceAlg.c:31-58 | A page in memory moves no frame, the first empty frame is filled, and else the page goes into the frame at the wrapped pointer, which moves on by one. |
| `PageReplacement.KeepsFrame` | LabWeek17/code/replaceAlg.c:48-165 | In any run whose references change at most one frame each, a page keeps its frame for as long as it stays in memory. |
| `MatrixLRU.ZerosByAge` | LabWeek17/code/replaceAlg.c:122-158 | The row of a page used earlier has more zeros than that of a page used later. |
| `MatrixLRU.MostZerosIsOldest` | LabWeek17/code/replaceAlg.c:149-165 | The resident page whose row has most zeros is the least recently used one. |
| `MatrixLRU.VisitMatrixLRU` | LabWeek17/code/replaceAlg.c:119-170 | One reference on the matrix and the frames is one LRU step: a page in memory moves no frame, the first empty frame is filled, and else the page goes into the very frame of a least recently used page. |
| `MatrixLRU.ReplaceAlgMatrixLRU` | LabWeek17/code/replaceAlg.c:108-171 | Matrix LRU and stack LRU agree on every reference string, the same hits at every step and the same pages in memory, while the frames change one at a time, the frame of a least recently used page at each eviction. |
| `SecondChance.LeadMeaning` | LabWeek17/code/replaceAlg.c:210-216 | The leading pages are those in front of the first with a clear bit, and all have theirs set. |
| `SecondChance.RotateMeaning` | LabWeek17/code/replaceAlg.c:210-216 | The search clears exactly the leading set bits, at most one for each frame, and leaves the order of the pages. |
| `SecondChance.CodeFollowsPolicy` | LabWeek17/code/replaceAlg.c:208-223 | One step of the program is one step of the queue policy exactly unless the pointer stands behind the frames, the cell there does not read 1, and the page in the first frame has its chance. |
| `SecondChance.OverrunEvictsFirst` | LabWeek17/code/replaceAlg.c:210-222 | In that case the program evicts the page in the first frame although it has its chance, and the newcomer inherits the chance. |
| `SecondChance.RunIsPolicyIff` | LabWeek17/code/replaceAlg.c:185-227 | Over every reference string the program has the queue of the policy all along exactly if it never meets that case. |
| `SecondChance.RunIsPolicy` | LabWeek17/code/replaceAlg.c:185-227 | A run that never meets that case ends with the queue of the policy. |
| `SecondChance.OverrunHappens` | LabWeek17/code/replaceAlg.c:218-222 | The case occurs: two frames and the pages 1 2 3 4 3 5. |
| `SecondChance.ReplaceAlgSecondchance` | LabWeek17/code/replaceAlg.c:173-228 | The loop over the arrays reports the hits of the modelled run, leaves its frames and bits, and every reference is one step of the clock told on the arrays. |
| `SecondChance.VisitSecondchance` | LabWeek17/code/replaceAlg.c:186-226 | On the arrays: a hit sets the bit of the page, a page loaded into the first empty frame gets its bit set, and else the search clears the set bits from the pointer on and the page goes where it meets a clear one or has come round. |
| `ClockFrames.BitMeaning` | LabWeek17/code/replaceAlg.c:188-217 | Over every run, overruns included: the bit of a frame is set exactly if a page was loaded into it empty, or used in it again, and no search has passed over it since. |
| `ClockFrames.PageChance` | LabWeek17/code/replaceAlg.c:188-217 | Where no page was evicted unseen: a page in memory has its bit set exactly if it was loaded into an empty frame, or used again, and no search has passed over it since. |
| `ClockFrames.FirstEviction` | LabWeek17/code/replaceAlg.c:208-223 | After any string over exactly n different pages a new page takes the frame of the one loaded first, and every bit is clear then. |
| `ClockFrames.ClockFrameTrace` | LabWeek17/code/replaceAlg.c:185-227 | The frames of a second-chance run change one at a time. |
| `DiskPaths.TourCost` | LabWeek18/code/diskSchedule.c:18-31 | Every path that stops at all requests is at least as long as the span and the way to its nearer end. |
| `DiskPaths.Sort` | LabWeek18/code/diskSchedule.c:39 | Sorting leaves the same requests, in order. |
| `DiskPaths.TwoSweepsUnique` | LabWeek18/code/diskSchedule.c:96-316 | The requests, the head, the directions and the turns fix every stop of a path of two sweeps. |
| `ElevatorSeek.FCFS` | LabWeek18/code/diskSchedule.c:18-33 | The stops are the requests in arrival order and the distance is the length of that path. |
| `ShortestSeek.Merge` | LabWeek18/code/diskSchedule.c:47-62 | While requests lie on both sides each move goes to a nearest pending request of all. |
| `ShortestSeek.SSTF` | LabWeek18/code/diskSchedule.c:34-77 | Every request is served once; each move goes to a nearest of all stops still to come; the sum of signed differences is the path length; it is at most 3 times the span and 3 times any path that serves all requests. |
| `ElevatorSeek.LOOK` | LabWeek18/code/diskSchedule.c:212-258 | The stops are one sweep from the head over all requests on the first side and one back over all others; the sum of signed differences is the path length and the closed form for the direction. |
| `ElevatorSeek.LookOptimal` | LabWeek18/code/diskSchedule.c:228-256 | The better of the two directions of LOOK is no longer than any path that serves all requests. |
| `ElevatorSeek.LookAtMostScan` | LabWeek18/code/diskSchedule.c:96-136 | In either direction LOOK moves the arm no further than SCAN. |
| `ElevatorSeek.SCAN` | LabWeek18/code/diskSchedule.c:80-138 | The stops are one sweep from the head over all requests on the first side, the end of the disk unless requested, and one sweep back over all others; the sum of signed differences is the path length and the closed form for the direction. |
| `CircularSeek.CLOOK` | LabWeek18/code/diskSchedule.c:260-318 | The stops are two sweeps in one direction, from the head over all requests on the first side and then over all others; the sum of signed differences is the path length and a closed form in the ends of the requests and the one nearest the head. |
| `CircularSeek.CLookLength` | LabWeek18/code/diskSchedule.c:276-316 | The distance of C-LOOK is the way over the first side, across to the far end, and back to the request nearest the head on the other side. |
| `CircularSeek.CSCAN` | LabWeek18/code/diskSchedule.c:140-210 | The stops are two sweeps in one direction with the turns between them told from the requests; inward the sum is the path length, and outward it is exactly unless a request at 0 is still to be served from above, when it is short by twice the way back. |
| `CircularSeek.OuterTurnIff` | LabWeek18/code/diskSchedule.c:190-194 | Outward the turn at the far end is left out exactly if no request lies at the head or beyond and one lies just below the head. |
| `CircularSeek.TwiceAtEndIff` | LabWeek18/code/diskSchedule.c:170-194 | The turn at the far end is one where the arm stands already exactly if a request lies at the last cylinder, or outward the head does and no request lies just below it. |
| `CircularSeek.OuterTurnOdd` | LabWeek18/code/diskSchedule.c:190-194 | Two concrete inputs: one where the arm never goes to the far end, and one where it stops there twice. |
| `CircularSeek.CLookAtMostCScan` | LabWeek18/code/diskSchedule.c:156-208 | In either direction C-LOOK moves the arm no further than C-SCAN. |
| `CircularSeek.OverlookedIff` | LabWeek18/code/diskSchedule.c:196-206 | The outward sum is right exactly unless there is a request at cylinder 0 and the head stands above it. |
| `CircularSeek.CScanNegative` | LabWeek18/code/diskSchedule.c:190-206 | A concrete input for which the arm moves 15 cylinders and the sum is -3. |
| `ReadyOrder.PlaceOrdered` | LabWeek16/code/Scheduler.c:118-124 | Insertion into an ordered queue leaves it ordered. |
| `ReadyOrder.PlaceStable` | LabWeek16/code/Scheduler.c:118-124 | A newcomer joins behind all tasks of its own rank, and the tasks of other ranks keep their places among themselves. |
| `ReadyOrder.RunOrdered` | LabWeek16/code/Scheduler.c:198-233 | Over any pushes and pops preemptive SJF keeps the queue in order, and the non-preemptive policies everything behind the head. |
| `ReadyOrder.NextIsLeast` | LabWeek16/code/Scheduler.c:226-233 | After a pop the task at the head is least among all that wait. |
| `ReadyOrder.TiesInArrivalOrder` | LabWeek16/code/Scheduler.c:198-233 | Over any pushes and pops the tasks of one rank that have left, followed by those that wait, are those that arrived, in order. |
| `ReadyOrder.RunMembers` | LabWeek16/code/Scheduler.c:198-233 | Over any pushes and pops what left and what waits is together what arrived. |
| `ReadyOrder.FCFSInOrder` | LabWeek16/code/Scheduler.c:82-95 | Under first come first served the order of leaving is the order of arrival. |
| `ReadyOrder.HeadStays` | LabWeek16/code/Scheduler.c:128-146 | Without preemption no pushes displace the task at the head. |
| `ReadyOrder.PemPriorityRightIff` | LabWeek16/code/Scheduler.c:154-173 | The preemptive priority push puts the task in its place exactly when the queue is empty or the task goes to the front. |
| `ReadyOrder.PemPriorityFailure` | LabWeek16/code/Scheduler.c:165-172 | Otherwise, on an ordered queue, it follows NULL exactly when no queued task has a lower priority, and else leaves the queue out of order. |
| `ReadyOrder.PemPriorityFails` | LabWeek16/code/Scheduler.c:165-172 | Concrete queues on which it follows NULL, and on which it leaves the newcomer behind a task of lower priority. |
| `ReadyOrder.PemPriorityRunIff` | LabWeek16/code/Scheduler.c:148-175 | Over any pushes and pops the queue is right all along exactly if every push meets an empty queue or outranks its head. |
| `ReadyOrder.PemPriorityMeantOrdered` | LabWeek16/code/Scheduler.c:148-175 | The queue that policy is meant to have is in order of priority over any pushes and pops. |
| `ReadyQueue.Queue.InsertAfter` | LabWeek16/code/Scheduler.c:121-124 | Linking a node behind a node of the list inserts its task there and leaves the rest of the list. |
| `ReadyQueue.Queue.Fcfs` | LabWeek16/code/Scheduler.c:82-95 | The push on the list is the push of the policy on the sequence. |
| `ReadyQueue.Queue.PemSjfPush` | LabWeek16/code/Scheduler.c:99-126 | The push on the list is the push of the policy on the sequence. |
| `ReadyQueue.Queue.NotPemPush` | LabWeek16/code/Scheduler.c:128-195 | Both non-preemptive pushes on the list insert behind the head as the policy does on the sequence. |
| `ReadyQueue.Queue.PemPriorityPush` | LabWeek16/code/Scheduler.c:148-175 | The push on the list does what the broken push does on the sequence, the NULL dereference included. |
| `ReadyQueue.Queue.PushThread` | LabWeek16/code/Scheduler.c:198-223 | The dispatch pushes as the chosen policy does. |
| `ReadyQueue.Queue.PopThread` | LabWeek16/code/Scheduler.c:226-233 | The first task leaves, and an empty queue stays empty. |
| `ReadyQueue.Serve` | LabWeek16/code/Scheduler.c:198-233 | Any pushes and pops on the list leave the queue, and pop the tasks, of the run on sequences. |
| `ShortestJob.WaitingIsDelay` | LabWeek16/code/Scheduler.c:441-449 | The sum of completion minus run time is what each task delays those behind it. |
| `ShortestJob.SortedDelayLeast` | LabWeek16/code/Scheduler.c:99-126 | Tasks in order of run time delay each other least among all permutations. |
| `ShortestJob.OrderSorts` | LabWeek16/code/Scheduler.c:99-126 | A batch pushed before the first pop leaves the queue as a sorted permutation of itself. |
| `ShortestJob.ShortestJobOptimal` | LabWeek16/code/Scheduler.c:99-126 | No permutation of a batch has a smaller total of completion minus WCT than the order preemptive SJF drains it in. |
| `ShortestJob.CalAverWaitTime` | LabWeek16/code/Scheduler.c:441-449 | The loop reports the sum of the waits over 3, truncated toward zero. |
| `ShortestJob.LeastAverage` | LabWeek16/code/Scheduler.c:441-449 | With ideal run times the average reported for the SJF order is least, whatever order the threads are listed in. |
| `HeapOrder.RootIsLeast` | LabWeek07/code/实验部分一.c:180-182 | Slot 0 of a heap holds a least number. |
| `HeapOrder.SinkStep` | LabWeek07/code/实验部分一.c:106-117 | Exchanging a record with its smaller child keeps all order but below the new slot. |
| `HeapOrder.RiseStep` | LabWeek07/code/实验部分一.c:138-142 | Exchanging a record with its parent keeps all order but above the new slot. |
| `HeapOrder.FindExhaustive` | LabWeek07/code/实验部分一.c:190-206 | The search from slot 0 ends at a match, and gives up exactly when no record matches, heap or not. |
| `HeapOrder.PoppedMembers` | LabWeek07/code/实验部分一.c:146-169 | The sift moves whole records, and removal takes out exactly the one in slot 0. |
| `HeapOrder.RemovedStudents` | LabWeek07/code/实验部分一.c:146-176 | The flag and the links it writes do not touch the students: those left are all but the one in slot 0. |
| `HeapOrder.RemovedFields` | LabWeek07/code/实验部分一.c:146-176 | Every field of every record a removal leaves: those of a record that was there, but for the flag of the one at head and the links that lead past the removed one. |
| `HeapOrder.RemovedHeapIff` | LabWeek07/code/实验部分一.c:146-176 | On a heap, the whole removal leaves a heap exactly when the last record is not above a child of the smaller child of the root. |
| `HeapOrder.PoppedHeapIff` | LabWeek07/code/实验部分一.c:156-170 | The same for the sift alone. |
| `HeapOrder.RemovalLosesLeast` | LabWeek07/code/实验部分一.c:166-169 | A heap of six from which two removals leave a number in slot 0 that is not least. |
| `StudentHeap.StaticLinkList.constructor` | LabWeek07/code/实验部分一.c:63-69 | All slots are free, the lowest on top of the stack, and the list is empty. |
| `StudentHeap.StaticLinkList.TopStack` | LabWeek07/code/实验部分一.c:54-58 | The free slot handed out is always the first one beyond those in use, and -1 exactly when none is free. |
| `StudentHeap.StaticLinkList.InsertListAtHead` | LabWeek07/code/实验部分一.c:72-85 | The record joins in the first free slot, in use, with the old head behind it, and no other field changes but the old head's pre; a chain of slots along nex and back along pre grows by the new slot in front. |
| `StudentHeap.StaticLinkList.RearrangeHeap` | LabWeek07/code/实验部分一.c:97-120 | Any array becomes a heap that is a permutation of it, and head still is the slot of the one record without a predecessor. |
| `StudentHeap.StaticLinkList.PushHeap` | LabWeek07/code/实验部分一.c:123-143 | A heap stays a heap with exactly one more record, in use and with the old head behind it, at which head then points; no other field changes but the old head's pre. |
| `StudentHeap.StaticLinkList.LinkIn` | LabWeek07/code/实验部分一.c:124-134 | Before the rise the new record is stored in the first free slot, and a chain of slots along nex and back along pre grows by it in front. |
| `StudentHeap.JoinedChain` | LabWeek07/code/实验部分一.c:72-85 | One record joined in front of the head takes any duplicate-free chain of slots to the same chain with the new slot in front. |
| `StudentHeap.StaticLinkList.PopHeap` | LabWeek07/code/实验部分一.c:146-177 | The records left are those of the modelled removal with the flag and the links as written, head is where the code leaves it, and the freed slot goes back on the stack. |
| `StudentHeap.HeadAfterMeaning` | LabWeek07/code/实验部分一.c:151-176 | After a removal from a heap head is where the removed record led if that was first in the list, and else where it was unless the sift moved a record without a predecessor. |
| `StudentHeap.StaticLinkList.FindHeap` | LabWeek07/code/实验部分一.c:190-206 | The recursive search on the array finds what the search on the sequence finds. |
| `StudentHeap.StaticLinkList.FindHeapID` | LabWeek07/code/实验部分三/shm.h:221-245 | The search by number finds what the search on the sequence finds, and nothing from a negative slot. |
| `StudentHeap.StaticLinkList.TopHeap` | LabWeek07/code/实验部分一.c:180-182 | The top of a heap is a least record of it. |
| `StudentHeap.StaticLinkList.ModifyId` | LabWeek07/code/实验部分一.c:219-227 | When the student is there exactly his number changes and the array becomes a heap; otherwise nothing changes. |

## Left out

- Weak memory order and data races in C: accesses are atomic and in one order. `counter++` and
  `counter--` are one access each, so no increment is lost.
- Shared-memory calls, `fork` and `exec`, `sleep`, printing and reading input.
- `qsort`: a small insertion sort with the same contract stands in for it.
- Integer width: none of the modelled sums comes near the range of `int` for the sizes the programs admit.
- MAX_N, MAX_PHY_BLOCK_NUM and the other fixed limits, except MAXSIZE of the student list: the theorems hold for all sizes.
- The thread ids stored beside the items of the buffer, and `pro_no`.
- PetersonShm.FairTermination: allows a killed process, because the program can kill itself at the counter check; a run that is not killed delivers all messages.
- Whether the `pre` and `nex` links still chain the records in use after records are exchanged: an exchange carries a record's links along without renumbering its neighbours'. What each operation writes to the links, the flag and `head` is modelled.
- `modifyName`, which only copies a string.
- The cell behind the frames that stack LRU copies into the last frame (`replaceAlg.c:97-99`): it is overwritten at once, and the model shifts one cell less.
- `Init` (`Scheduler.c:411`), which stores the run time of the second thread in the first one's record and leaves its own unset: run times are taken as given.
- Signals, `pthread_kill`, task status, random arrival and the clock of the scheduler: only the queue and ideal run times are modelled.
- The thread pools (LabWeek13, LabWeek15), the BBS server (LabWeek09), message queues (LabWeek08), the process, clone, TLS and OpenMP demonstrations (LabWeek05, LabWeek11, LabWeek12) and the assembly notes (LabWeek02 to LabWeek04): library calls around little logic of their own.
- The circular queue of LabWeek06: the semaphore buffer covers it.
