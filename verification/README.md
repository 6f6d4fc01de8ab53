# MuFA operating-system projects: a verified model

Dafny models of the four cores of the repository, with proofs of what they keep.

* **Project1, the CPU/disk simulator.** `SimModel` is one tick as a function of the state and of all random
  draws of the tick, so a run is any sequence of draws within the configured ranges. `SimSafety`, `SimLaws`,
  `SimLiveness`, `SimOrder`, `SimDeadlock` and `SimStuck` prove structural safety, the queueing laws of the
  recorded statistics, bounded unblocking, order of service, and exactly when the system can lock up. `SimFate`
  says what becomes of every job in a tick, and over runs who arrives when and who terminates; `SimStats` says what
  each counter of the statistics counts. `PriorityQueue` and `Simulator` are the program itself: linked nodes,
  jobs, devices and the loop of ticks, updated in place, each method proved to carry out the step of `SimModel`.
* **Project4/mufa_fs, the inode file system.** `FsCodec` (directory text), `FsVolume` (layout and first-fit
  writing, byte by byte), `FsAllocation` (ownership of blocks, what a write stores), `FsForest` and `FsTree`
  (directories, mkdir, touch, the recursive rm), `FsLaws`, `FsRemove`, `FsRuns` and `FsRecords` (what each
  operation and every session keeps), `FsNames` (reading and writing by name), and `FsInstance`, the object with
  its loops, proved against them.
* **Project3, the semaphore and the producer/consumer queue.** `Semaphore` and `MonitorQueue` are step
  relations, one statement per step, for any number of threads, with spurious wakeups (`Totals` adds up what
  the threads may still do). `SemaphoreCalls` and `MonitorCalls` prove that in every run each operation acts at
  once, and what the calls that have returned add up to.
* **Project2, the shell lexer.** `Lexer` is the loop with its indices, proved against a one-pass
  specification; `LexerLaws` proves that it inverts a backslash-escaping printer, and exactly when; `LexerWords`
  says what lines mean, character by character.

Where the code and its own documentation disagree, the model follows the code:

* Project1/README.md calls both queues FIFO; elements pushed with equal priority behind the head come out in
  reverse order (`PriorityQueue.EqualPrioritiesAreReversed`). The CPU queue is a FIFO nevertheless
  (`SimOrder.CpuQueueIsFifo`); a disk queue is one up to jobs that arrive in the same tick.
* Every disk draws its burst up to DISK1_MAX, whatever its own maximum, and ties between disks go to the
  first one.
* An ordinary departure from the CPU records a response time of zero and a termination records none
  (`SimLiveness.OnlySwapsRecord`).
* `read_file` moves between the blocks of a file by the difference of their numbers, and appends each buffer as
  a C string; where the buffer holds no terminator, or the read is cut short, the result is not defined and the
  model returns none. A text of a block or more never comes back (`FsAllocation.ReadBackIff`).
* With no free inode left, `find_inode` hands out the root (`FsTree.FindsRootOtherwise`).

Assumptions about the simulator's configuration (`SimModel.WfConf`): CPU_MIN and every DISK_MIN are at least 1,
each minimum is at most its maximum, every DISK_MIN is at most DISK1_MAX, and every disk capacity is at most
INT_MAX, with which `pickBestDisk` starts. `Simulator` also takes FIN_TIME to fit an `int`, because queue
priorities are `int`.

In the file system a session starts from a newly formatted volume. Creating needs a free inode, a block for
the directory unless it has one, and room for the entry in that one block; writing needs a text of at most ten
blocks but no room; removing needs nothing.

`dafny verify dfyconfig.toml` checks the whole project.

## Model

| member | source | states |
|---|---|---|
| PriorityQueue.PushKeepsSorted | Project1/pqueue.c:28-50 | pushing into a sorted queue keeps it sorted |
| PriorityQueue.PushKeepsHead | Project1/pqueue.c:36-49 | a push displaces the head only when the head has the larger priority |
| PriorityQueue.AppendsExactlyWhen | Project1/pqueue.c:36-49 | a push is an append exactly when the head is not behind the new element and all others are strictly before it |
| PriorityQueue.EqualPrioritiesAreReversed | Project1/pqueue.c:43-48 | two elements of equal priority behind a head come out in reverse order |
| PriorityQueue.SlotDependsOnPriorities | Project1/pqueue.c:38-45 | the place of a new node depends on priorities alone, not on the values |
| PriorityQueue.PQueue.PushQueue | Project1/pqueue.c:28-50 | the linked list holds the old nodes with the new one linked in at its slot |
| PriorityQueue.PQueue.PushQueueEnd | Project1/pqueue.c:53-65 | the new node, with priority 0, is linked behind all others |
| PriorityQueue.PQueue.PopQueue | Project1/pqueue.c:20-25 | the head is unlinked and all other nodes stay |
| PriorityQueue.PQueue.SizeQueue | Project1/pqueue.c:71-79 | the walk counts the nodes |
| PriorityQueue.PQueue.IsEmpty | Project1/pqueue.c:67-69 | true exactly when no node is linked |
| SimSafety.FinishedHeadIsServed | Project1/main.c:121-129 | a disk head with burst 0 is the disk's current job, so it can be removed without a null dereference |
| SimSafety.SwapSafe | Project1/main.c:161-167 | the swap keeps both devices in order, the disk being one over its capacity in between |
| SimSafety.VisitDisksSafe | Project1/main.c:150-169 | handing finished jobs back and swapping keep capacities, heads and order of priorities |
| SimSafety.PickBestDiskIsShortest | Project1/main.c:106-118 | a shortest disk among those with room; none exactly when all are full |
| SimSafety.CpuFinishSafe | Project1/main.c:56-68 | departure, waiting and termination keep safety, and a job that has to wait means all disks are full |
| SimSafety.KillJobSafe | Project1/main.c:291-297 | termination keeps safety |
| SimSafety.UserActivitySafe | Project1/main.c:268-289 | generating and admitting a job keep safety |
| SimSafety.TickSafe | Project1/main.c:43-74 | every tick keeps safety: current job is the head, capacities hold, a blocked CPU means more jobs than disk places |
| SimSafety.ReachableSafe | Project1/main.c:43-74 | safety in every reachable state, for all draws |
| SimSums.SwapConserves | Project1/main.c:161-167 | the swap neither loses nor duplicates a job |
| SimSums.VisitDisksConserves | Project1/main.c:150-169 | nor does the whole loop over the disks |
| SimSums.DepartConserves | Project1/main.c:58-65 | nor does a departure from the CPU, although the job is in two queues in between |
| SimSums.CpuComputeConserves | Project1/main.c:55-69 | the CPU phase conserves jobs, a terminated one being counted as such |
| SimLaws.ReachableLaws | Project1/main.c:84-102 | in every reachable state: discrete Little's law and utilisation law per disk, bounds on the statistics, flow balance, each job in exactly one place, population integral |
| SimLaws.ThroughputBound | Project1/main.c:191-207 | a disk completes at most one job per DISK_MIN busy ticks |
| SimLaws.TickLaws | Project1/misc.c:197-202 | every tick keeps the laws of each disk, swap ticks included |
| SimLaws.TickSystem | Project1/main.c:268-297 | every tick keeps flow balance, the population integral and the place of every job |
| SimLiveness.BoundedUnblocking | Project1/main.c:144-174 | when the disks together hold at least as many jobs as the CPU queue, a job waiting on the CPU is swapped onto a disk within (free CPU places + 1) * (DISK1_MAX + 1) ticks, for all draws |
| SimLiveness.BlockedTick | Project1/main.c:144-174 | a tick without the swap strictly lowers free CPU places, then the burst of the first loaded disk |
| SimLiveness.SwappedJobReachesDisk | Project1/main.c:161-167 | when the swap fires, the waiting job is in a disk queue at the end of the tick |
| SimLiveness.OnlySwapsRecord | Project1/main.c:130-138 | a tick without a swap leaves the response-time sum of the CPU as it was |
| SimOrder.ArrivalAppends | Project1/main.c:240-246 | an arriving job goes to the very end of the CPU queue |
| SimOrder.CpuQueueIsFifo | Project1/main.c:240-277 | over every run, the jobs the CPU queue held followed by those admitted and handed back, in the order of those events, are the jobs swapped out, sent to a disk or terminated, in the order of those events, followed by the jobs it holds; and as many leave as response times and terminations are recorded |
| SimOrder.DiskServesInArrivalOrder | Project1/main.c:216-226 | over every run a disk serves in nondecreasing arrival tick |
| SimDeadlock.NeverStuck | Project1/main.c:144-174 | no reachable state is stuck when the disks together hold at least as many jobs as the CPU queue |
| SimDeadlock.StuckForever | Project1/main.c:150-173 | a stuck state stays stuck under all draws |
| SimDeadlock.ProgressIffNotStuck | Project1/main.c:55-69 | with a job in the system, a tick decreases a burst or moves or ends a job exactly when the state is not stuck |
| SimStuck.GetsStuckIff | Project1/main.c:150-173 | a stuck state is reachable for some configuration with these capacities exactly when the disks together hold fewer jobs than the CPU queue |
| SimFate.ArrivalExactly | Project1/main.c:268-289 | a job is made exactly when none waits, with the next id, one gap after its predecessor and the burst drawn; it is admitted when due and there is room, stamped with the tick, behind all others |
| SimFate.ArrivalTimes | Project1/main.c:279-289 | in every run from the start, job k is due at the sum of the first k + 1 gaps, one gap being drawn in each tick that finds no job waiting |
| SimFate.VisitExactly | Project1/main.c:150-169 | one turn of the loop over the disks, case by case: which job goes where, with which arrival tick and burst, and that nothing else changes |
| SimFate.TickFate | Project1/main.c:55-70 | in every tick of every safe state: a job that does not use up its burst stays, one unit lower; one that does is terminated exactly when the draw is at most QUIT_PROB, and otherwise is on the shortest disk with room, or still heads the CPU queue when all are full; every disk has served its head |
| SimFate.TerminatesExactly | Project1/main.c:57-68 | the jobs terminated in a run are exactly those that use up their burst in a tick whose draw says so, in that order, with those ticks |
| SimFate.TerminatedIsGone | Project1/main.c:291-297 | in every reachable state a terminated job is in no queue, and no other job has its id |
| SimStats.StatisticsExactly | Project1/main.c:84-102 | over every run, for the CPU and each disk: the seven counters are the ticks, the ticks that end with a current job, sum and maximum of the queue lengths at the ends of ticks, and number, sum and maximum of the response times |
| SimStats.StatisticsFromStart | Project1/main.c:77-82 | from the start all of them begin at zero |
| SimStats.VisitAnswers | Project1/main.c:121-138 | what a visit to a disk records: the time since its arrival for the job handed back, and for the job swapped from the CPU |
| Simulator.Device.RemoveJob | Project1/main.c:121-138 | the response time is recorded in place and the head unlinked |
| Simulator.Device.ArriveAtCpu | Project1/main.c:240-246 | the job is stamped and pushed with its arrival tick as priority |
| Simulator.Device.ArriveAtDisk | Project1/main.c:216-226 | the job gets a disk burst and is pushed at its slot |
| Simulator.ReturnFromDisk | Project1/main.c:248-254 | the head of the disk is recorded, unlinked and linked behind the CPU queue |
| Simulator.SwapJobs | Project1/main.c:161-167 | the three statements of the swap, in their order, on shared nodes and jobs |
| Simulator.DepartJob | Project1/main.c:61-62 | the job is stamped and pushed to the disk while still heading the CPU queue, then unlinked there |
| Simulator.Device.Compute | Project1/main.c:191-207 | a waiting job is entered and the current burst decremented |
| Simulator.Device.Record | Project1/main.c:84-102 | counts the tick, counts it as busy only with a current job, and adds the queue length; what the counters come to is SimStats.StatisticsExactly |
| Simulator.Simulator.constructor | Project1/main.c:307-338 | empty devices make the initial state |
| Simulator.Simulator.UserActivity | Project1/main.c:268-277 | carries out the arrival step |
| Simulator.Simulator.CpuDetermineJob | Project1/main.c:144-174 | the loop over the disks and the fetch carry out the scheduling step, and the result says whether the CPU has work |
| Simulator.Simulator.PickBestDisk | Project1/main.c:106-118 | the loop finds the disk of the specification, with the unsigned difference of the code |
| Simulator.Simulator.CpuFinish | Project1/main.c:57-68 | departs, waits or terminates as the specification does; which of them is SimFate.TickFate |
| Simulator.Simulator.DiskCompute | Project1/main.c:191-207 | the loop over the disks carries out the disk step |
| Simulator.Simulator.RecordCommonStats | Project1/main.c:84-102 | the loop records the tick for the CPU and every disk; what the counters come to is SimStats.StatisticsExactly |
| Simulator.Simulator.Tick | Project1/main.c:46-72 | one turn of the loop is one tick of the model |
| Simulator.Simulator.Simulate | Project1/main.c:43-74 | the whole loop ends in the state that the model reaches from the initial one under the same draws |
| Semaphore.NextInv | Project3/semaphore.cpp:19-39 | every step of every thread keeps the invariant |
| Semaphore.SemaphoreIsSafe | Project3/semaphore.cpp:19-39 | in every reachable state: initial count + notifies = count + waits + successful tries, mutual exclusion, no decrement at zero, and unclaimed permits never exceed the threads on their way while somebody sleeps; what each operation does to the count is SemaphoreCalls.SectionExactly |
| Semaphore.QuietMeansNoPermit | Project3/semaphore.cpp:19-30 | when no thread can move, sleepers wait for permits that do not exist and nobody else is inside |
| Semaphore.ComesToRest | Project3/semaphore.cpp:19-39 | however they are scheduled, n threads without new calls or spurious wakeups stop moving after at most 8 * n steps |
| SemaphoreCalls.SectionExactly | Project3/semaphore.cpp:19-39 | in every run a critical section is one of these: notify adds one; wait, entered or woken, takes one and returns if the count was positive when it took the mutex, and sleeps otherwise; try_wait answers whether it was positive, taking one exactly if so |
| SemaphoreCalls.TryAnswersRightly | Project3/semaphore.cpp:32-39 | a try_wait about to return b took the mutex in a state whose count was positive exactly if b, and the count is lower by one exactly if b |
| SemaphoreCalls.CountFollowsReturns | Project3/semaphore.cpp:19-39 | whenever the mutex is free, the count is the initial one plus the notifies that returned, minus the waits that returned, minus the try_waits that returned true |
| SemaphoreCalls.WakesExactlyOne | Project3/semaphore.cpp:22-22 | notify_one wakes exactly one sleeper if there is one, and nobody otherwise |
| SemaphoreCalls.TryWaitRuns | Project3/semaphore.cpp:32-39 | for every initial count there is a run in which a single try_wait answers whether the count is positive, taking one if it is |
| MonitorQueue.QueueIsSafe | Project3/consumer_producer_queue.hpp:19-37 | in every reachable state: produced = consumed ++ queue, the bound holds, the front is taken only from a non-empty queue, and a sleeper whose predicate holds is about to be woken |
| MonitorQueue.QuietMeansServed | Project3/consumer_producer_queue.hpp:19-37 | when no thread can move, producers sleep only on a full queue and consumers only on an empty one, never both |
| MonitorQueue.ComesToRest | Project3/consumer_producer_queue.hpp:19-37 | however they are scheduled, n threads without new calls or spurious wakeups stop moving after at most (6 * n + 5) * n steps, although every operation wakes everybody |
| MonitorQueue.Limit | Project3/consumer_producer_queue.hpp:21-21 | the bound as compared with an unsigned size: maxsize itself, or 2^64 + maxsize when it is negative |
| MonitorCalls.SectionExactly | Project3/consumer_producer_queue.hpp:19-37 | in every run a critical section of add or consume, entered or woken, pushes behind or pops the front if the queue it found allows it, and changes nothing and sleeps if it does not |
| MonitorCalls.QueueFollowsCalls | Project3/consumer_producer_queue.hpp:19-37 | whenever the mutex is free, the requests of the adds that got through, in that order, are those consumed followed by those queued, one consumed for each consume that got through |
| MonitorCalls.NotifyWakesAll | Project3/consumer_producer_queue.hpp:24-35 | notify_all wakes every sleeper and nobody else, and ends the call |
| Lexer.Lex | Project2/mufash.cpp:318-416 | the loop with its indices and the clean-up compute the commands of the one-pass specification, every index in range; what those are for ordinary lines is LexerWords.LineMeansCommands |
| Lexer.LexNext | Project2/mufash.cpp:338-407 | one turn of the loop consumes what the specification consumes and keeps the indices on the last command and argument; which characters are plain is LexerWords.PlainIsValid |
| Lexer.LexQuote | Project2/mufash.cpp:385-398 | the nested loop takes the quoted text, dropping backslashes |
| Lexer.LexOperator | Project2/mufash.cpp:352-380 | an operator drops an empty last argument, records itself and opens a blank command |
| Lexer.LexEscape | Project2/mufash.cpp:381-384 | the next character is taken whatever it is, the terminator at the end of the line |
| Lexer.LexSpace | Project2/mufash.cpp:346-351 | a space that is not skipped opens an argument |
| Lexer.SkipComment | Project2/mufash.cpp:399-405 | everything up to the next # or the end of the line is skipped |
| Lexer.CleanUp | Project2/mufash.cpp:408-416 | the empty last argument and the empty last command are dropped and the paths set |
| Lexer.Quoted | Project2/mufash.cpp:385-398 | quoted text never contains a backslash |
| LexerLaws.RoundTripIff | Project2/mufash.cpp:318-416 | a printed list of commands lexes to itself exactly when every argument but a command's last has a plain character (the first of the line needs none) and no last argument is empty |
| LexerLaws.LexPrinted | Project2/mufash.cpp:338-416 | for every list of commands: the arguments come back merged as described, operators and flags intact |
| LexerLaws.MergedIffKept | Project2/mufash.cpp:342-351 | merging changes nothing exactly under that condition |
| LexerLaws.NormalForm | Project2/mufash.cpp:318-416 | whatever the line, no command redirects its input, and the commands have an escaped line of their own exactly under that condition |
| LexerLaws.QuotingIsEscaping | Project2/mufash.cpp:381-398 | quoting a text is the same as escaping each of its characters |
| LexerLaws.CommentsVanish | Project2/mufash.cpp:399-405 | a comment leaves no trace in any state; without the closing # the rest of the line is lost |
| LexerWords.PlainIsValid | Project2/misc/misc.cpp:55-57 | isvalid accepts the 68 characters written out there and no other, and none of those with a meaning |
| LexerWords.OthersVanish | Project2/mufash.cpp:342-407 | every character that is neither plain nor has a meaning leaves no trace, in any state and before any rest |
| LexerWords.LineMeansCommands | Project2/mufash.cpp:338-416 | a line of words, spaces and operators lexes to one command per operator, redirected or in the background as written, with the plain characters of its words as arguments; spaces only separate, except that one at the start of the line makes an empty first argument |
| LexerWords.QuotesExactly | Project2/mufash.cpp:385-398 | quoted text reaches to the first quote that an even number of backslashes precedes, or to the end, and stands for its characters without the backslashes |
| LexerWords.BackslashTakesNext | Project2/mufash.cpp:381-384 | a backslash takes the next character as it is, the terminator at the end of the line |
| FsCodec.DirectoryRoundTrip | Project4/mufa_fs/main.cpp:551-582 | a directory written into a zeroed block reads back as the same entries |
| FsCodec.ParseDecimal | Project4/mufa_fs/main.cpp:573-577 | a printed index parses back |
| FsCodec.Serialize | Project4/mufa_fs/main.cpp:282-283 | the loop builds the text entry by entry |
| FsCodec.EncodeExactly | Project4/mufa_fs/main.cpp:282-283 | each entry is laid out as its name, NUL, its index in decimal without leading zeros, NUL |
| FsCodec.DecodeExactly | Project4/mufa_fs/main.cpp:563-578 | any block is read as pairs of terminated texts, a name and a number, up to the first empty text in place of either |
| FsCodec.ParseExactly | Project4/mufa_fs/main.cpp:575-577 | only the leading digits count, and what does not fit 64 bits becomes the largest number |
| FsVolume.FormatIsDisjoint | Project4/mufa_fs/main.cpp:145-164 | superblock, root record, inode records and data blocks do not overlap; the data area ends past the image by at most the reserved block |
| FsVolume.FormatExactly | Project4/mufa_fs/main.cpp:145-164 | which sizes are refused, how many blocks there are (2^56 - 1 below the overhead), one inode for every full thirty of them, the rest data blocks |
| FsVolume.RootRecord | Project4/mufa_fs/main.cpp:78-85 | the root's index -1 wraps around to the start of the reserved block |
| FsVolume.FirstFree | Project4/mufa_fs/main.cpp:391-413 | first fit: ascending, clear, and nothing clear is passed over |
| FsVolume.WriteIsolation | Project4/mufa_fs/main.cpp:389-416 | a write changes the drive only inside the new blocks and the inode's record |
| FsVolume.WriteStores | Project4/mufa_fs/main.cpp:404-411 | block t of the file holds piece t of the text, padded with zeros |
| FsVolume.WriteCommits | Project4/mufa_fs/main.cpp:78-85 | after a write the inode's record lies at its address |
| FsVolume.ParseRecordInverts | Project4/mufa_fs/main.cpp:60-70 | a packed inode record parses back to the inode |
| FsVolume.RecordBytes | Project4/mufa_fs/main.cpp:60-70 | the record byte by byte: kind, then parent, self and ten slots of eight bytes, least significant first |
| FsVolume.Need | Project4/mufa_fs/main.cpp:391-412 | the fewest blocks that hold a text, but at least one |
| FsAllocation.WriteIsolates | Project4/mufa_fs/main.cpp:389-416 | superblock, every other record and every block owned by another inode keep their bytes |
| FsAllocation.AllocatedIsFree | Project4/mufa_fs/main.cpp:379-413 | blocks handed out belong to nobody else; the root always gets block 0 back, and nobody else gets it |
| FsAllocation.WriteKeepsSound | Project4/mufa_fs/main.cpp:379-416 | a write keeps: a bit is set exactly when one inode slot owns the block |
| FsAllocation.PurgeKeepsSound | Project4/mufa_fs/main.cpp:379-387 | freeing keeps it too |
| FsAllocation.WriteSparesOthers | Project4/mufa_fs/main.cpp:389-416 | every other inode keeps record, blocks and contents |
| FsAllocation.AllocatedCount | Project4/mufa_fs/main.cpp:393-413 | a write takes max(1, size / block size rounded up) blocks, or all that are clear or its own |
| FsAllocation.WriteStoresAllIff | Project4/mufa_fs/main.cpp:389-416 | the whole text is stored, zeros behind it, exactly when clear and own blocks suffice; otherwise it is cut off |
| FsAllocation.ReadBackIff | Project4/mufa_fs/main.cpp:442-456 | for every text of at most ten blocks: what read_file returns after a write is the text exactly when the text has no NUL, is shorter than a block, and there was a block for it or it is empty |
| FsForest.SiblingsDisjoint | Project4/mufa_fs/main.cpp:340-360 | different entries of a directory have disjoint subtrees |
| FsForest.SubtreeBelow | Project4/mufa_fs/main.cpp:345-348 | everything in a subtree has an index no larger than its top, so the recursion of rm ends |
| FsForest.EmptiedStep | Project4/mufa_fs/main.cpp:346-348 | removing the entries of a directory one by one empties it |
| FsTree.FindsLargestFree | Project4/mufa_fs/main.cpp:229-262 | find_inode hands out the free inode with the largest index |
| FsTree.FindsRootOtherwise | Project4/mufa_fs/main.cpp:253-262 | with no free inode it hands out the root, which is always queued |
| FsTree.WrittenEntries | Project4/mufa_fs/main.cpp:263-284 | a rewritten directory reads back as written, through block, text and decimal indices |
| FsTree.WriteDirectory | Project4/mufa_fs/main.cpp:389-416 | rewriting a directory changes what it lists and nothing else in the tree |
| FsLaws.CreateKeeps | Project4/mufa_fs/main.cpp:293-331 | mkdir and touch append one entry for a fresh inode, record its parent, leave all other inodes alone and keep the invariant; mkdir alone puts the inode back into the queue |
| FsRemove.RmPrunes | Project4/mufa_fs/main.cpp:340-360 | the recursive rm leaves the tree pruned at the entry, and keeps the invariant |
| FsRemove.RmEntriesEmpties | Project4/mufa_fs/main.cpp:344-349 | its loop empties the removed directory although it is rewritten on each turn |
| FsRuns.RmRemovesExactly | Project4/mufa_fs/main.cpp:340-360 | in every directory: exactly the entry goes, the bits that stay set are those of the survivors and of the one block of the directory, as many blocks become clear as the removed inodes owned, every surviving file keeps record and contents, no spare block is needed |
| FsRuns.RmFromRootFrees | Project4/mufa_fs/main.cpp:340-387 | from the root, the bits cleared are exactly those of the removed subtree |
| FsRuns.RmNamedDropsFirst | Project4/mufa_fs/main.cpp:362-373 | rm of a name drops the first entry of that name and no other |
| FsRuns.WriteNamedThenRead | Project4/mufa_fs/main.cpp:423-472 | writing a name is refused exactly for a directory; otherwise reading the name gives the text back exactly when it has no NUL, is shorter than a block and there was a block for it or it is empty, the file being there or created |
| FsRuns.FreshInv | Project4/mufa_fs/main.cpp:476-526 | the instance that starts on a new image satisfies the invariant |
| FsRuns.FreshExactly | Project4/mufa_fs/main.cpp:476-526 | the instance on a new image field by field: how many inodes and blocks, the root a directory, all others free, all queued, only the first data block taken |
| FsRuns.ImageExactly | Project4/mufa_fs/main.cpp:170-187 | a new image byte by byte: superblock, the record of the root at 336, zeros elsewhere |
| FsRuns.StepKeeps | Project4/mufa_fs/main.cpp:293-416 | mkdir, touch, write_file and rm keep it |
| FsRuns.OwnershipAlways | Project4/mufa_fs/main.cpp:379-416 | in every state of every session: bit set exactly when owned, one owner and one slot per block, block 0 the root's alone, free inodes own nothing |
| FsNames.ReadTextExactly | Project4/mufa_fs/main.cpp:442-456 | read_file of an inode returns a text exactly when every buffer that it reads holds a terminated one, and then those in turn, the buffers lying where its relative seeks lead |
| FsNames.FileNamesReadText | Project4/mufa_fs/main.cpp:457-472 | so does reading the name of any file, whoever wrote it and when |
| FsNames.OtherNamesReadEmpty | Project4/mufa_fs/main.cpp:463-472 | the name of a directory and a name that no entry bears read as the empty text |
| FsNames.DirectoryReadsEmpty | Project4/mufa_fs/main.cpp:463-466 | a directory just made reads as the empty text by its name after any number of touches inside it |
| FsNames.WriteNamedSpares | Project4/mufa_fs/main.cpp:423-441 | writing a name adds at most one entry, behind the others and only if none bears the name; every other inode keeps its record, its blocks and what they hold |
| FsNames.RmUnlisted | Project4/mufa_fs/main.cpp:340-360 | rm of an inode that the directory does not list changes nothing |
| FsRecords.SuperblockAlways | Project4/mufa_fs/main.cpp:177-182 | the superblock written at format time is on the drive in every state of every session |
| FsRecords.RecordsAlways | Project4/mufa_fs/main.cpp:78-85 | in every state of every session, whatever a directory lists has its record on the drive, which parses to the inode in memory |
| FsRecords.RmKeepsByte | Project4/mufa_fs/main.cpp:340-360 | below the data blocks, rm reaches the records of the removed inodes and of the rewritten directory alone |
| FsInstance.Instance.CreateDriveImage | Project4/mufa_fs/main.cpp:137-194 | the writes at format time make the image: superblock, zeros, and the root's record in the place of inode 0 |
| FsInstance.Instance.Init | Project4/mufa_fs/main.cpp:476-526 | reading the records of a new image gives the first state of a session |
| FsInstance.Instance.WriteZeros | Project4/mufa_fs/main.cpp:123-128 | the loops write exactly that many zeros at the cursor |
| FsInstance.Instance.PurgeFileContents | Project4/mufa_fs/main.cpp:379-387 | the loop over the slots frees the inode's blocks |
| FsInstance.Instance.FillBlocks | Project4/mufa_fs/main.cpp:391-414 | the loop over the bitmap takes the first clear blocks, sets their bits, records them in slot order and writes the pieces of the text to them |
| FsInstance.Instance.WriteText | Project4/mufa_fs/main.cpp:389-416 | freeing, filling and committing compute write_file |
| FsInstance.Instance.ReadEntries | Project4/mufa_fs/main.cpp:563-578 | the walk over the buffer decodes the block |
| FsInstance.Instance.GetDirEntry | Project4/mufa_fs/main.cpp:551-582 | the loop over the slots reads all entries |
| FsInstance.Instance.ReadFile | Project4/mufa_fs/main.cpp:442-456 | the loop with its relative seeks returns what the specification returns: never a NUL, and of a file of one block the text before the first NUL |
| FsInstance.Instance.WriteNamed | Project4/mufa_fs/main.cpp:423-441 | the search, and the file written or created and written |
| FsInstance.Instance.ReadNamed | Project4/mufa_fs/main.cpp:457-472 | the search, and the text of the file found; what each kind of name reads as is FsNames.OtherNamesReadEmpty and FsNames.FileNamesReadText |
| FsInstance.Instance.FindInode | Project4/mufa_fs/main.cpp:258-262 | takes the queued inode that no queued one outranks: the largest free one, or the root when none is free |
| FsInstance.Instance.InsertDirEntry | Project4/mufa_fs/main.cpp:263-292 | rewrites the directory with the entry behind the others |
| FsInstance.Instance.Mkdir | Project4/mufa_fs/main.cpp:293-306 | the statements of mkdir compute the model's step and keep the invariant |
| FsInstance.Instance.Touch | Project4/mufa_fs/main.cpp:315-331 | so do those of touch |
| FsInstance.Instance.Remove | Project4/mufa_fs/main.cpp:340-360 | the recursion ends, computes the model's rm, and says whether the inode was listed |
| FsInstance.Instance.RemoveEntries | Project4/mufa_fs/main.cpp:344-349 | the loop over the subdirectory |
| FsInstance.Instance.RemoveNamed | Project4/mufa_fs/main.cpp:362-373 | rm of a name |

## Left out

* Project1: logging, the statistics printout and `finalizeStats` (floating point), reading `conf.txt`, the distribution of the random generator. The CPU and disk structs are modelled by one class; wrap-around of the unsigned counters is not modelled.
* The averages of CPU response times: departures record zero and terminations nothing, so no useful law holds.
* Concurrency is modelled by step relations rather than by classes, since the two objects are shared by threads that interleave between statements; counters are unbounded.
* Fairness among threads: which sleeper gets the next permit or request is left to the scheduler; proved is that threads left alone come to rest within a bound, and what holds then.
* Project3: sockets, the server loop, the dictionary, the unsynchronised `length()`.
* Project2: prompt and history, running commands, pipes, built-ins, path search; the copy of the lexer in Project4.
* Project4: the fields inside the superblock (here any 70 bytes), remounting (the rebuild of the bitmap in `init`, which does nothing on a new image), indirect blocks, texts over ten blocks, directories over one block, `cd` and `..`, the command prompt, the copy of `cwd` kept in memory, what the drive holds of removed inodes. The priority queue of inodes is modelled as a set ordered by its comparison.
- FsInstance.Instance.FindInode: the heap of the standard library is not modelled, only which element is on top.
- Lexer.Lex: a command with no argument at all has no path, where the code would read past the end of the vector.
