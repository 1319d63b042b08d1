# A verified model of the xv6 kernel with copy-on-write memory, run queues, threads and futexes

This project models the parts of the kernel, and of its user library, whose correctness is a
property of whole runs, in Dafny, and proves those properties. Nothing of it is executed; `dafny verify dfyconfig.toml`
checks it. Sizes such as the number of processes, CPUs, buffers, threads and blocks are
parameters wherever the source's behaviour does not depend on their values.

**Memory** (`Frames`, `AddressSpaces`, `VmSpec`, `VmOps`, `VmFaults`, `VmRun`, `VmExec`, `VmCost`, `VmTheorem`,
`VmFacts`, `Vm`, `Eager`). `Eager` is a machine in which fork copies every page and sbrk fills pages
with zeros at once. `VmTheorem.RunRefines` says that after any run of fork, sbrk, load, store, exec and
exit the kernel, with its shared frames, reference counts, zero pages on demand and faults, has in every
address space what that machine has, that loads return its bytes, and exactly when an operation fails:
for want of frames, counted in `VmCost`, on the guard page, or in the untouched part of the last page. It
rests on exact counting: a frame's count is the number of page-table entries, tables, directories and
kernel owners that name it. `Vm` is the code of vm.c over the allocator of kalloc.c
with its linked free list; each method ends in the state that the specification gives.

**Log and buffer cache** (`LogDisk`, `LogOps`, `BufferCache`, `BufferLru`, `Bio`, `LogCopy`, `Log`). `LogDisk` is the
disk after each single block write of commit and recovery. `Log` is log.c over `Bio`, the linked LRU
cache of bio.c; its commit is shown to produce exactly those disks, so a crash anywhere is covered by
`LogDisk.CrashAtomic`, and a crash during recovery by `LogDisk.AnyNumberOfCrashes`. A commit gets to its
end whenever one buffer is neither pinned nor held.

**Processes** (`Scheduler`, `Aging`, `Lifetimes`, `ProcTable`, `ProcRuns`, `ProcTheorem`, `ProcKill`,
`RunQueues`, `Proc`, `ProcEffects`, `ProcWaits`, `ProcBirth`). `ProcTable` has a step for every critical section of proc.c; fork, clone and exec are several
steps, between which anybody else may act. `ProcTheorem.Reachable` gives two invariants over every run:
queues agree with process states, and page directories are freed exactly once. No starvation follows
from a rank made of aging passes still needed and processes ahead. `Proc` is the table with its linked
queues; each method ends in the state that the step gives. `ProcEffects` says what each step does to each process,
field by field; `ProcWaits` and `ProcBirth` what whole runs do: no exit is missed by a parent in wait
(`ProcWaits.NoLostExit`), a boost ends with the pick, a slice has its ticks, and what the child of a fork
is, whatever others do meanwhile. `ProcKill` says whom kill marks.

**Processes and memory together** (`KernelRuns`). Each critical section with the operation on memory that
it performs. Address spaces are exactly those that processes have, and futex keys are stable while a
space is shared, because fork and exec refuse shared spaces.

**Mutex and condition variable** (`Futex`, `FutexPaths`). A step system over single atomic actions, for any number of
threads, including the gap in futex_wait between its second look at the word and sleeping. `FutexPaths` follows one
thread: mutex_lock and cond_wait return only with the mutex (`FutexPaths.ReturnsHolding`).

**Files** (`FsBlocks`, `FsSpec`, `FsFile`, `FsBmap`, `FsWrite`, `FsTrunc`, `FsWide`, `Fs`, `FsHistory`, `File`, `FsCrash`). Blocks are bytes;
bitmap bits, indirect entries and inodes are decoded from them. Each data block has one owner or none,
as the bitmap says; readi is a slice and writei a splice of one byte sequence; filewrite's chunks keep to
the log's reservation wherever they fall. `FsCrash.CrashedTogether` puts files and log together: after a
crash anywhere in a write, among other operations that are committed with it, the disk is consistent and
the file has a number of whole chunks.

**Pipe and malloc** (`Pipe`, `FreeList`, `Umalloc`). The ring with 32-bit counters that wrap, and the
circular free list of section 8.7 of The C Programming Language.

`Params` has the constants of param.h that only bound things; they are left open, so that what is said
holds for the values there and for others. `Sets` counts finite sets.

Where code and expectation part, the code is modelled and the difference stated exactly:
- sbrk to exactly zero frees the pages and still returns -1; below zero it does nothing, and succeeds unless the space is empty (`VmRun.SbrkRefines`, `VmFacts.FailedSbrk`).
- A lazy page past the break but within its page is not there until touched (`VmFacts.TailOfLastPage`).
- A user write to a present page without PTE_U faults for ever (`VmFaults.AccessOutcome`, `VmCost.AccessExact`).
- The log's size test fires before absorption, and within the reservation for the size that mkfs chooses (`LogOps.GuardExact`, `LogOps.AbsorbedWriteCanPanic`).
- If init called join, an orphaned thread's address space would leak (`Lifetimes.JoinExact`).
- A condition variable misses a broadcast exactly at a multiple of 2^32 increments (`Futex.SleepsIff`), and a run of the model does (`Futex.MissedBroadcast`).
- malloc's rounding wraps above 2^32 - 8 bytes, and its request to sbrk is not positive from 2^31 bytes on (`Umalloc.UnitsEnough`, `Umalloc.SbrkArgRight`): what malloc then hands out ends beyond the memory that sbrk granted (`Umalloc.GrantCovers`, `Umalloc.Allocator.Malloc`).
- filewrite's chunks fit the reservation for any size of bitmap, because a block that a write only continues is not allocated (`FsWrite.ChunkFits`).
- kill marks the first slot with the id, used or not: with id 0, or that of a failed fork, it can be an unused one, whose next child is then born marked (`ProcKill.BornKilled`). It does what it should if and only if the id is positive and a process in use has it (`ProcKill.KillExact`).
- itrunc exceeds the reservation exactly for a file whose blocks have as many bitmap blocks as an operation may log, or more (`FsTrunc.TruncFits`). There is such a file on a disk of that many bitmap blocks (`FsWide.WideFile`); on a disk of the 2000 blocks that mkfs makes, which have one bitmap block, every file fits.

## Model

| member | source | states |
|---|---|---|
| Frames.SameCountsSameFree | kalloc.c:106-168 | two valid allocator states with equal counts have free lists of equal length: the free list is duplicate-free and holds exactly the zero-count frames, so its length is determined by the counts |
| Frames.Kmem.constructor | kalloc.c:49-62 | after both phases every frame behind the kernel is on the free list once, with no references, and the list agrees with the counts |
| Frames.Kmem.Freerange | kalloc.c:64-73 | the frames of the range join the free list, the last one first, in front of those already there; all counts are as before |
| Frames.Phys.IncrefValid | kalloc.c:75-86 | one more reference keeps the free list exact if and only if the 16-bit count does not wrap |
| Frames.Kmem.Incref | kalloc.c:75-86 | the count of a frame in use goes up by one, in 16 bits; a free frame or one out of range is a panic, hence a precondition |
| Frames.Kmem.Getref | kalloc.c:88-100 | the count; for a managed frame it is zero exactly if the frame is on the free list |
| Frames.Kmem.Kfree | kalloc.c:106-135 | the count goes down by one; only at zero is the page filled with ones and pushed on the linked free list, whose links stay a duplicate-free chain of exactly the zero-count frames |
| Frames.Kmem.Kalloc | kalloc.c:155-168 | the head of the free list leaves it with count one, or nothing happens and the list is empty |
| Frames.Kmem.Freemem | kalloc.c:137-150 | walking the links counts exactly the abstract free list |
| AddressSpaces.CountBound | kalloc.c:75-86 | a user frame's count is at most the number of page directories plus the kernel's own references |
| AddressSpaces.SharedNotWritable | vm.c:408-441 | two page-table entries name one frame only if both are read-only |
| VmSpec.WalkAllocGood | vm.c:37-57 | walking with allocation adds at most one page-table page; it fails only with no frame free and then changes nothing |
| VmSpec.MapPageGood | vm.c:62-82 | mapping hands the caller's reference to the entry, keeping counts exact; failure changes nothing |
| VmSpec.KmapExact | vm.c:107-117 | a page table is among the kernel's if and only if an address of the kernel's mappings lies in it, and none is counted twice |
| VmSpec.SetupGood | vm.c:119-138 | setupkvm's loop keeps the counts exact and touches no user page |
| VmSpec.DeallocSkip | vm.c:357-370 | skipping a page-directory entry without a table, as deallocuvm does, frees the same pages as visiting every page |
| VmSpec.FreeVmGood | vm.c:376-391 | freevm returns the directory, its tables and one reference per mapped page, and nothing else; counts stay exact |
| VmSpec.CowGood | vm.c:408-441 | after any number of pages, whether or not the loop was cut short, counts are exact, nobody but the child sees a difference, and on success the child holds what the parent holds |
| VmOps.SameStructureSameCounts | kalloc.c:106-168 | with exact counts, the same page tables mean the same counts and as many free frames |
| VmOps.ForkQuiet | vm.c:408-441 | fork keeps the invariant: exact counts, no writable sharing, valid allocator |
| VmOps.ForkRefines | vm.c:408-441 | fork shows every program exactly an eager copy of the parent; a failed fork is invisible and restores every reference count and the length of the free list |
| VmFaults.FaultInvisible | vm.c:273-310 | no page fault, resolved or not, changes what any program sees |
| VmFaults.FaultOutcome | vm.c:255-310 | the handler succeeds exactly when it can, touches one entry, keeps the invariant, and a resolved write fault leaves the page writable |
| VmFaults.AccessOutcome | vm.c:273-310 | which accesses go through, which kill the process, and which fault for ever: exactly the user writes to a present, resolvable page without PTE_U, because the handler does not look at PTE_U |
| VmFaults.StoreRefines | vm.c:443-474 | a store is visible in the writer's address space and nowhere else, whatever copying or zero-filling it causes; one that does not go through is invisible |
| VmFaults.LoadRefines | vm.c:255-310 | a load returns what the eager machine holds there and changes nothing visible |
| VmRun.SbrkRefines | sysproc.c:45-65 | for every int argument sbrk moves the break as the eager machine does, except the shrink to exactly zero, whose pages go although -1 is returned; below zero it does nothing, and succeeds unless the space is empty |
| VmRun.ExitQuiet | vm.c:376-391 | giving up an address space keeps the invariant and drops exactly that directory |
| VmRun.ExitRefines | vm.c:376-391 | exit removes one address space and disturbs no other |
| VmExec.SpawnRefines | exec.c:41-106 | building an image yields exactly that image, zero-filled beyond the file, in a space nobody else sees; a failed build restores every count |
| VmCost.ForkExact | vm.c:408-441 | fork succeeds if and only if there is a slot and there are frames for a directory, the kernel's tables and one page-table page for each 4 MB region in which the parent has a page; it takes exactly those and no frame for a user page |
| VmCost.SpawnExact | exec.c:41-106 | an image can be built if and only if there is a slot, it ends below the kernel, and there are frames for its pages, its page tables and the kernel's |
| VmCost.AccessExact | vm.c:273-310 | an access goes through if and only if the eager machine has the page, the address is below the break or the page has been touched, the page is not the guard page, and the frames for it are free; it faults for ever if and only if it is a user write to the guard page; else the process is killed |
| VmTheorem.StepRefines | vm.c:255-474 | each of fork, sbrk, load, store, exec, exit, and the kernel's own page allocations keeps the invariant, takes the eager machine's step, and succeeds or fails exactly as that machine's contents and the free frames call for |
| VmTheorem.RunRefines | vm.c:255-474 | over every run of any length all address spaces hold what the eager machine gives them, and every outcome along the way, success or failure, is the one that machine and the frames then free call for |
| VmFacts.CountsFit | kalloc.c:75-86 | a mapped user frame's count is between one and the number of processes, so the 16-bit count cannot wrap |
| VmFacts.KeyIdentifies | vm.c:222-231 | a futex key on a writable page is shared by no other word of any address space, and lies below the top of physical memory, so it is no kernel address |
| VmFacts.WritableStays | vm.c:422-425 | a writable page's entry is unchanged by every step except a fork, shrink, exec or exit of its own address space |
| VmFacts.CowKeyMoves | vm.c:456-474 | the key of a word on a copy-on-write page moves at the next write exactly if the frame is shared: why the page must be writable before a waiter sleeps |
| VmFacts.TailOfLastPage | vm.c:287-295 | between the break and the end of its page, an untouched page kills the process where the eager machine has memory |
| VmFacts.FailedSbrk | proc.c:290-308 | a failed sbrk leaves memory as it was if and only if it is not the shrink to exactly zero of a space with something in it |
| VirtualMemory.Vm.constructor | kalloc.c:49-62 | no address space, over an allocator with every frame free |
| VirtualMemory.Vm.WalkAlloc | vm.c:37-57 | the state becomes that of the walk of the specification, with the same success |
| VirtualMemory.Vm.MapPage | vm.c:62-82 | one page mapped as specified, or nothing |
| VirtualMemory.Vm.DeallocUvm | vm.c:348-372 | the loop, with its jump over missing tables, frees exactly the specified range |
| VirtualMemory.Vm.FreeVm | vm.c:376-391 | the whole directory as specified |
| VirtualMemory.Vm.FreeTables | vm.c:384-390 | the loop over the directory returns every page-table page |
| VirtualMemory.Vm.SetupKvm | vm.c:119-138 | the new directory with the kernel's tables, or everything given back |
| VirtualMemory.Vm.ShareTo | vm.c:417-433 | the loop of cowuvm, up to its end or its first failure, as specified |
| VirtualMemory.Vm.Fork | vm.c:408-441 | the state and the answer of the specified fork |
| VirtualMemory.Vm.LazyAlloc | vm.c:255-271 | a zero page mapped, or the frame given back |
| VirtualMemory.Vm.CowFault | vm.c:443-474 | re-enabled in place at count one, else a copy with the old reference dropped |
| VirtualMemory.Vm.PageFault | vm.c:273-310 | the branches of the handler, as specified |
| VirtualMemory.Vm.Access | vm.c:273-310 | permission, fault and retry as specified |
| VirtualMemory.Vm.Store | vm.c:273-310 | one byte through the fault handler |
| VirtualMemory.Vm.Load | vm.c:273-310 | one byte read through it |
| VirtualMemory.Vm.Sbrk | sysproc.c:45-65 | both branches in 32-bit arithmetic, as specified |
| VirtualMemory.Vm.Exit | vm.c:376-391 | the space removed and freed, as specified |
| VirtualMemory.Vm.LoadImage | vm.c:314-342 | pages allocated and filled, or all undone |
| VirtualMemory.Vm.Spawn | exec.c:41-106 | exec's construction of a space, with its guard page and its failure path |
| LogDisk.HeadRoundTrip | log.c:84-113 | reading back a written log header gives the block list that was written |
| LogDisk.CrashAtomic | log.c:192-202 | after any prefix of commit's disk writes, recovery leaves the home blocks exactly as before the transaction if the header write is not among them, exactly as after all of it if it is; a complete commit leaves the log empty |
| LogDisk.RecoveryRestarts | log.c:115-122 | a recovery cut short after any of its writes leaves a disk whose recovery gives the same home blocks |
| LogDisk.AnyNumberOfCrashes | log.c:115-122 | so do any number of recoveries cut short at any points |
| LogDisk.EventAtomic | log.c:115-202 | a transaction, finished or crashed and recovered through any number of further crashes, is applied entirely or not at all |
| LogDisk.HistoryAtomic | log.c:115-202 | over every history of transactions and crashes the home blocks are those of the transactions that reached their header write, in order |
| LogOps.StepKeeps | log.c:124-174 | whatever the interleaving, logged blocks plus unspent reservations fit LOGSIZE, no block is listed twice, and a commit runs only with no operation in progress |
| LogOps.ReachableInv | log.c:124-174 | so in every reachable state |
| LogOps.NoDeadlock | log.c:125-141 | a begin_op that waits waits for an operation that will end or a commit that will finish |
| LogOps.GuardNotReached | log.c:213-222 | with more log blocks than LOGSIZE no operation within its budget meets the panic on a new block |
| LogOps.GuardExact | log.c:218-219 | the panic is unreachable for such operations if and only if the log has more than LOGSIZE blocks; mkfs makes exactly LOGSIZE |
| LogOps.AbsorbedWriteCanPanic | log.c:218-226 | because the test comes before absorption, even a block already in a full log is refused, at any log size |
| BufferCache.BreadGood | bio.c:58-106 | bread returns the one buffer of its block with the content readers see, changes no content, recycles only an unreferenced clean buffer, and fails only when there is none |
| BufferCache.BwriteGood | bio.c:109-116 | the disk gets the locked buffer's data, which becomes clean; what readers see does not change |
| BufferCache.BrelseGood | bio.c:120-141 | releasing keeps the invariant: at most one buffer per block, valid clean unlocked buffers equal the disk, the ring a permutation of all buffers |
| BufferCache.SetDataGood | log.c:77 | changing a locked buffer changes the content of its block and of no other |
| BufferCache.MoveFront | bio.c:130-137 | moving a buffer to the front keeps the ring a permutation |
| Bio.Unlink | bio.c:131-132 | taking a node out of the doubly linked ring leaves a ring of the others in order |
| Bio.PushFront | bio.c:133-136 | putting a node behind the head makes it the first of the ring |
| Bio.Bcache.constructor | bio.c:38-56 | every buffer is linked once, unused |
| Bio.Bcache.Find | bio.c:68-76 | the forward walk finds the block's buffer, if there is one |
| Bio.Bcache.FindIdle | bio.c:81-91 | the backward walk finds the least recently released unreferenced clean buffer |
| Bio.Bcache.Bget | bio.c:58-93 | the cache becomes the specified one; none only if every buffer is in use or dirty |
| Bio.Bcache.Bread | bio.c:96-106 | with the disk's data read in when the buffer was not valid |
| Bio.Bcache.Bwrite | bio.c:109-116 | one atomic block write, appended to the history of disks, and no change of content |
| Bio.Bcache.Brelse | bio.c:120-141 | the links and the ring as specified, content unchanged |
| LogCopy.TransferGood | log.c:74-80 | two reads, a copy, a write and two releases put the source's content into the destination on disk and in the cache, unpin the destination, and change nothing else |
| LogCopy.LogStep | log.c:181-188 | each turn of write_log extends the disk by one logged block and leaves every file and every pin as it was |
| LogCopy.InstallStep | log.c:73-81 | each turn of install_trans installs one block from the log and unpins it |
| BufferLru.LeastRecentlyUsed | bio.c:61-93 | after any operations on the cache, a block that is not in it gets the idle buffer whose last release is the longest ago, none only if all are held or pinned; a block that is in it keeps its buffer |
| LogCopy.IdleLeft | log.c:192-202 | with exactly the logged blocks pinned and more buffers than logged blocks and held buffers together, one buffer can be recycled |
| LogCopy.PinGood | log.c:231 | log_write's pin changes no content and makes exactly its block dirty |
| LogFile.Log.Transfer | log.c:73-81 | one turn of either loop: exactly one disk write, the copy of one block's content; it does not fail with two free buffers, or one if the second block is pinned, and loses none |
| LogFile.Log.WriteLog | log.c:177-190 | its disk writes are, one by one, those of the model of write_log, also when buffers run out; files and pins are as before; it gets to its end with two free buffers, or one if the logged blocks are pinned |
| LogFile.Log.InstallTrans | log.c:69-82 | its disk writes are, one by one, those of the model of install_trans; on success every logged block is installed and unpinned; it gets to its end with two free buffers, or one if the logged blocks are pinned |
| LogFile.Log.WriteHead | log.c:101-113 | one disk write, of the header with the current block list; it fails only with no buffer free |
| LogFile.Log.FillHead | log.c:104-110 | the loop writes count and entries and nothing else of the block |
| LogFile.Log.Commit | log.c:192-202 | the history of the disk grows by exactly the writes that CrashAtomic speaks of, in that order and possibly cut short; a finished commit leaves every home block reading as before, nothing it logged pinned, and the log empty; it finishes whenever one buffer is free and the logged blocks are pinned, or two are free |
| LogFile.Log.RecoverFromLog | log.c:115-122 | its disk writes are exactly those of the model of recovery; finished, the log is empty, nothing is pinned and the class invariant holds; it finishes whenever two buffers are free |
| LogFile.Log.ReadHead | log.c:84-96 | the block list of the header on disk is read in; it fails only with no buffer free |
| LogFile.Log.BeginOp | log.c:125-141 | admission exactly when the reservation fits and no commit runs; the reservation state takes the specified step |
| LogFile.Log.LogWrite | log.c:213-233 | panics exactly by its two tests; otherwise absorbs or appends the block, pins the buffer, and takes the specified step, so that exactly the logged blocks are pinned |
| LogFile.Log.EndOp | log.c:145-174 | the last operation out commits what all logged, the others leave the disk alone; the reservation state takes the specified steps; the commit finishes whenever one buffer is neither pinned nor held: so whenever there are more buffers than logged blocks and held buffers, and always, with nothing held, if there are as many buffers as the log has blocks |
| LogFile.Log.FindLogged | log.c:224-227 | the absorption loop finds the place of a block in the list, or the first place after the list if it is not there |
| LogFile.TraceAtomic | log.c:192-202 | every disk in the history of a commit, whole or cut short, recovers to none or all of the transaction, depending only on whether the header write is among the writes |
| LogFile.CommitKeepsFiles | log.c:192-202 | installing from the log leaves each home block with the content it had in the cache when the commit began |
| Scheduler.EnqueueKeeps | proc.c:44-58 | a process that was in no queue can be queued on any CPU: afterwards every queue still lists exactly the runnable processes of its CPU and level, once each |
| Scheduler.TakeKeeps | proc.c:673-691 | taking the head of a queue to run keeps that agreement, and the head was runnable |
| Scheduler.DispatchKeeps | proc.c:671-691 | whatever a CPU picks, from its own queues or by stealing, was runnable, so the panic is unreachable; the agreement is kept |
| Aging.AgeQueue | proc.c:113-134 | after a pass each level holds its old unboosted members in order, then the boosted members of the next level in order |
| Aging.AgeProc | proc.c:124-132 | a pass ages every queued process exactly once and touches no other; CPUs do not change |
| Aging.AgeKeeps | proc.c:113-134 | the agreement of queues and states survives a pass: no process is lost, duplicated or moved to another CPU |
| Aging.AgedCloser | proc.c:126-130 | a pass brings a queued process above level 0 strictly closer to level 0 |
| Aging.RemainingAtMost | param.h:14-17 | at most its level times AGING_TICKS / AGING_INTERVAL passes remain |
| Aging.AgeAhead | proc.c:113-134 | a pass leaves as many ahead of a level-0 process as before |
| Lifetimes.StepKeeps | proc.c:313-647 | every critical section of fork, clone, exec, exit, wait and join, in any interleaving, keeps: a thread runs in its parent's space until init takes it over, and the allocated directories are exactly those in use |
| Lifetimes.FreesRight | proc.c:603-647 | what a step frees was allocated, nobody uses it any more, and nothing else stops being allocated |
| Lifetimes.JoinAccounted | proc.c:453-495 | join drops a directory without freeing it and never the last reference to it |
| Lifetimes.JoinExact | proc.c:453-495 | dropping an exited thread's directory unfreed is right if and only if another process still uses it; with a parent other than init one always does |
| Lifetimes.FreedOnce | proc.c:363-647 | over any run an allocated directory is freed exactly once if nobody uses it at the end, and not at all if somebody does |
| Lifetimes.SharedUntouched | proc.c:314-334 | while two processes have a directory no fork copies it, no exec replaces it and nothing frees it: the sharing tests still hold when fork and exec act |
| Lifetimes.SoleStays | proc.c:376-386 | a process alone in its space stays alone whatever the others do, so the lock may be dropped after the sharing test |
| ProcRuns.SoleIs | proc.c:363-386 | pgdir_users is at least one for a process's own directory, and one exactly if no other process has it |
| ProcRuns.StepSteady | proc.c:313-871 | every step but an aging pass and a pick leaves those who are queued where they were, others only joining behind them |
| ProcTheorem.StepSeen | proc.c:313-647 | every step of the whole table is the corresponding step on address spaces |
| ProcTheorem.StepKeeps | proc.c:44-871 | every step keeps both: runnable exactly if queued once where the fields say, and the directory accounting |
| ProcTheorem.Reachable | proc.c:44-871 | so both hold after every run from the state userinit leaves, for any number of processes and CPUs |
| ProcTheorem.FreedOnce | proc.c:313-647 | over every run of the whole table a directory is freed exactly once if unused at the end, and never while used |
| ProcTheorem.DirectoryLive | proc.c:603-647 | every process that is not unused or an embryo finds its directory allocated |
| ProcTheorem.ReachesTop | proc.c:113-149 | a queued process that is still passed over after its level times AGING_TICKS / AGING_INTERVAL (rounded up) aging passes is at level 0, for any values of these constants |
| ProcTheorem.DrainsAway | proc.c:60-78 | at level 0 the number ahead of a process never grows and falls with every pick from its CPU, over every run |
| ProcTheorem.NoStarvation | proc.c:60-149 | after those passes fewer picks from its CPU than there are processes can pass a queued process over |
| ProcTheorem.IdleMeansFew | proc.c:673-675 | a CPU that finds nothing to run leaves fewer runnable processes than there are CPUs |
| ProcKill.PidsUnique | proc.c:196-221 | in every state of every run no two slots have one non-zero id, ids are below nextpid, and every slot in use has one |
| ProcKill.KillExact | proc.c:851-871 | kill marks one process in use, the only one with the id, and nothing else, if and only if the id is positive and a process in use has it; otherwise no process in use is marked |
| ProcKill.CleanExact | proc.c:851-871 | a step leaves a mark on a slot that is free, or that a failing fork may give back, if and only if it is a kill that finds such a slot first |
| ProcKill.BornClean | proc.c:196-221 | over every run in which kill names only processes past their birth, or none, nobody is born marked |
| ProcKill.BirthMark | proc.c:314-360 | a fork from start to end gives the child the mark that its slot had |
| ProcKill.BornKilled | proc.c:851-871 | a run from the start with a kill(0) in it whose first child is born marked, though no kill named it |
| KernelRuns.StepKeeps | proc.c:313-647 | the process table and memory together: after every step of either the address spaces there are are exactly those of the directories that processes have, none lost and none used after it is freed |
| KernelRuns.Reachable | proc.c:251-286 | so after every run from userinit, on a machine of any size |
| KernelRuns.Undisturbed | proc.c:376-386 | while pgdir_users is above one, no step moves, protects or frees a page of the space, shrinks by its own threads apart |
| KernelRuns.KeyStable | proc.c:509-520 | over every run throughout which pgdir_users is above one and no thread shrinks the heap, a writable page stays writable in its frame, so the futex key of a word in it is the same all along |
| RunQueues.LinkedAppend | proc.c:50-56 | appending at the tail extends the linked queue by one at its end |
| RunQueues.LinkedTail | proc.c:68-73 | unlinking the head leaves the linked rest |
| RunQueues.RefillIsMerge | proc.c:121-132 | popping everybody and pushing them back with their new levels is the stable merge |
| ProcFile.Ptable.constructor | proc.c:15-22 | a table of unused slots and empty, linked queues, in which the class invariant holds |
| ProcFile.Ptable.Allocproc | proc.c:195-247 | the first unused slot becomes an embryo with the next id and default priority, or is given back |
| ProcFile.Ptable.Userinit | proc.c:251-286 | from the empty table the start state of every run: the first process alone, queued on the first CPU |
| ProcFile.Ptable.RqPush | proc.c:44-58 | the process is last in the linked queue of its level, and the ready count is right |
| ProcFile.Ptable.RqPop | proc.c:60-78 | the head of the first level that has one is unlinked, or every level is empty |
| ProcFile.Ptable.LeastLoadedCpu | proc.c:80-93 | the first CPU of least load |
| ProcFile.Ptable.FindVictim | proc.c:95-108 | the first other CPU of greatest load above one, if any |
| ProcFile.Ptable.Drain | proc.c:121-123 | the queues of a CPU are emptied in order, the bound NPROC never being the reason to stop |
| ProcFile.Ptable.Refill | proc.c:124-132 | everybody is aged once and pushed back in that order |
| ProcFile.Ptable.AgeOneCpu | proc.c:120-133 | one CPU's queues become the stable merge |
| ProcFile.Ptable.RqAge | proc.c:113-134 | all CPUs' do |
| ProcFile.Ptable.SchedulerTick | proc.c:136-149 | a pass if at least AGING_INTERVAL ticks have gone by in 32-bit arithmetic |
| ProcFile.Ptable.Pick | proc.c:671-691 | own queues, then a victim's, as specified; the picked process is running on this CPU at its base priority with QUANTUM_BASE ticks for each level from its own to the lowest, and has waited for nothing |
| ProcFile.Ptable.Wake | proc.c:827-837 | everybody asleep on the channel is runnable, or with a limit the first so many in table order; the answer is their number, and nobody else changes |
| ProcFile.Ptable.Kill | proc.c:851-871 | the table becomes that of the step KillExact speaks of; it says that it succeeded exactly if some slot has the id |
| ProcFile.Ptable.Timer | trap.c:122-126 | a tick of the slice, and with the last one the running process joins the back of its level |
| ProcFile.Ptable.Yield | proc.c:754-762 | the running process joins the back of its level |
| ProcFile.Ptable.Sleep | proc.c:787-822 | the running process sleeps on the channel |
| ProcFile.Ptable.PgdirUsers | proc.c:363-375 | the count of slots in use with the directory |
| ProcFile.Ptable.Alloc | proc.c:323-325 | the first critical section of fork or clone: a slot for the child, or none |
| ProcFile.Ptable.Adopt | proc.c:328-338 | the child gets its space and its parent's priority, or its slot is given back |
| ProcFile.Ptable.Launch | proc.c:353-358 | the embryo is queued on the least loaded CPU |
| ProcFile.Ptable.Exit | proc.c:581-597 | the table becomes that of `ProcEffects.ExitExact`: the parent is woken, children go to init, the process is a zombie |
| ProcFile.Ptable.Reparent | proc.c:587-593 | the loop over the table, with its wakeups of init |
| ProcFile.Ptable.WaitTurn | proc.c:603-647 | one turn of wait, or of join: reap the first exited child, freeing its directory exactly when it is the last user; give up; or sleep; the last two only, and always, if no child, for join no thread, has exited |
| ProcEffects.WakeSaid | proc.c:827-837 | wakeup and futex_wake, process by process: exactly the first so many sleepers on the channel, all if there is no limit, become runnable, and the answer is their number |
| ProcEffects.KillEffect | proc.c:851-871 | kill, process by process: the first with the id is marked, and runnable if it slept; nobody else changes |
| ProcEffects.ExitExact | proc.c:581-597 | exit, process by process: the one that exits is a zombie with all else as it was, its children are init's, a parent asleep in wait is runnable, and so is init if one of the children is dead; nothing else changes |
| ProcEffects.WaitExact | proc.c:603-647 | wait and join, in terms of parent, thread and state alone: the first exited child's slot is emptied; with none, the table stays as it is if there is no child or the caller was killed, and otherwise the caller sleeps on itself |
| ProcEffects.PickExact | proc.c:671-691 | what a CPU picks: the first of the best level of its own while somebody is runnable there, else of the first most loaded other CPU that has two or more, else nothing; the picked process starts at its base priority with a full slice and nobody else changes |
| ProcEffects.TickExact | proc.c:113-147 | an aging pass, process by process: exactly the queued ones have waited longer, or go up one level with their waiting forgotten |
| ProcEffects.OwnSteps | proc.c:731-762 | timer, yield, sleep and setpriority: what becomes of the process and of its queue, and that nothing else changes |
| ProcEffects.ExecSteps | exec.c:10-117 | exec's steps change what the process is in the middle of, and at its end its directory, and nothing else in the table |
| ProcWaits.BoostEnds | proc.c:682-684 | in every state of every run a process is above its base priority only while it is queued |
| ProcWaits.QuantumExact | trap.c:122-126 | a picked process that only runs, whatever others do, is queued again at the last tick of its slice and not before |
| ProcWaits.ExitHeard | proc.c:583-593 | after an exit the parent is not asleep in wait, and neither is init if it has got a dead child |
| ProcWaits.NoLostExit | proc.c:603-647 | over every run from the start: a process that fell asleep in wait, or in join, sleeps on only as long as none of its children, or threads, has exited |
| ProcWaits.ParentsHear | proc.c:583-593 | in every state of every run in which only wait and join sleep on a process: nobody asleep on itself has a dead thread, and nobody who never called join has a dead child |
| ProcWaits.WokenByName | proc.c:787-837 | a process that went to sleep on a channel and still sleeps, whatever happened since, is woken by the wakeup of that channel and by no other |
| ProcBirth.AllocRefused | proc.c:320-326 | fork refuses exactly a shared address space, and fork and clone a full table; then nothing changes |
| ProcBirth.AllocExact | proc.c:196-229 | otherwise the first unused slot becomes an embryo with the next id and the middle priority, or is given back without a kernel stack |
| ProcBirth.AdoptExact | proc.c:328-341 | the embryo takes its parent's base priority and a directory of its own, or as a thread the parent's; or is given back |
| ProcBirth.LaunchExact | proc.c:353-359 | the child joins the back of its level on the first CPU with the fewest queued |
| ProcBirth.ChildIs | proc.c:313-362 | fork and clone as a whole, with any steps of others between their critical sections: the child is runnable, has the id that was next, its parent's base priority and the right directory, and is queued on a least loaded CPU |
| Futex.StepKeeps | uthread.c:103-152 | each atomic step of any thread keeps all of the following |
| Futex.MutualExclusion | uthread.c:103-121 | in every state of every run, for any number of threads, the word is 1 exactly if some thread holds the mutex, and no two do |
| Futex.NoLostWakeup | uthread.c:103-121 | whenever a thread is asleep on the mutex or about to be, there is a holder, a thread between its exchange and its futex_wake, or an awake contender that will try again |
| Futex.RetrySucceeds | uthread.c:103-108 | an awake contender takes a free mutex by at most two steps of its own |
| Futex.BroadcastReachesAll | uthread.c:147-152 | after a broadcast nobody whose snapshot is older, but less than 2^32 increments old, is asleep on the condition or about to be, and its next look at the word sends it back to the mutex |
| Futex.SleepsIff | proc.c:513-520 | the second look sends a waiter to sleep if and only if the number of increments since its snapshot is a multiple of 2^32; with fewer than 2^32, exactly if there was none |
| Futex.MissedBroadcast | uthread.c:129-152 | a run from the start in which a waiter falls asleep although every one of the 2^32 increments since its snapshot was broadcast |
| Futex.SignalWakesOne | uthread.c:140-145 | a signal sends exactly one of the sleepers, if there are any, after the mutex, and nobody else moves |
| FutexPaths.WaiterStep | uthread.c:129-138 | whoever takes the step, a waiter keeps its snapshot until it goes back to the mutex, and a snapshot is of the word as it is |
| FutexPaths.LockerStep | uthread.c:103-108 | a thread that is after the mutex stays so until it has it, when it was free |
| FutexPaths.HolderStep | uthread.c:116-152 | a holder holds until it releases; a signal increments and wakes one, a broadcast increments and wakes all |
| FutexPaths.OthersStay | uthread.c:103-152 | a step moves nobody but its thread and those that it wakes, who go after the mutex |
| FutexPaths.ReturnsHolding | uthread.c:103-138 | over every run: a thread inside mutex_lock or cond_wait that is out of it later has held the mutex in between |
| FutexPaths.SleepsUnlessSignalled | uthread.c:129-138 | over every run: a waiter's looks at the word lead to sleep if and only if the others signalled a multiple of 2^32 times since its snapshot, and else back to the mutex |
| FutexPaths.TakenIff | uthread.c:103-114 | in every state of every run trylock and each exchange take the mutex if and only if nobody holds it, and the looks of futex_wait lead to sleep if and only if somebody does |
| FutexPaths.UnlockWakesOne | uthread.c:116-121 | an unlock sends exactly one of those asleep on the mutex, if there are any, after it, and nobody else moves |
| FutexPaths.BroadcastWakesAll | uthread.c:147-152 | a broadcast sends everybody asleep on the condition after the mutex, and nobody else moves |
| FsBlocks.WordPut | fs.c:391-395 | a word written to a block is read back, and no other word of the block changes |
| FsBlocks.BitPut | fs.c:66-69 | setting or clearing one bitmap bit changes no other bit |
| FsSpec.DinodePut | fs.c:220-236 | the inode that iupdate wrote is the one on disk, and no other inode of the block changes |
| FsSpec.AllocOwn | fs.c:56-78 | a block whose bit is clear is a data block that nobody owns; allocating it changes no block number in any slot |
| FsSpec.FreeOwn | fs.c:81-95 | a block that has left its owner has its bit set, so the panic of bfree is unreachable; clearing it keeps ownership exact |
| FsSpec.AttachDirect | fs.c:377-390 | putting a new block into an empty direct slot, or a zeroed one into the indirect slot, gives it exactly one owner |
| FsSpec.AttachEntry | fs.c:391-395 | so does writing it into an empty entry of the indirect block |
| FsSpec.DetachOwn | fs.c:413-431 | emptying slots of an inode takes exactly their blocks out of ownership |
| FsWrite.WriteStep | fs.c:498-504 | each turn of writei extends the written part of the file by its piece, keeps every other byte of it and every other file, and leaves no hole |
| FsWrite.StayOwn | fs.c:506-509 | if the file has not grown no block was allocated, so the disk inode is still right without iupdate |
| FsWrite.GrowOwn | fs.c:506-509 | if it has grown, iupdate makes the disk inode right; the content is the splice and every other file is as before |
| FsWrite.ReadPiece | fs.c:469-474 | what one turn of readi copies is the next slice of the content |
| FsWrite.ChunkFits | file.c:133-145 | wherever a chunk of filewrite falls, at most MAXOPBLOCKS blocks can be logged |
| FsWrite.TrackTotal | file.c:127-133 | the logged blocks are among the file blocks touched, one bitmap block for each new one, the indirect block with its bitmap block, and the inode block; a block that the write only continues is not new |
| FsTrunc.DropIndirect | fs.c:421-431 | giving up the indirect block gives up exactly it and its entries, all distinct |
| FsTrunc.TruncEnd | fs.c:407-435 | after itrunc every block the inode had is free, ownership is exact and every other file is as before |
| FsTrunc.TruncFits | fs.c:407-435 | what itrunc logs keeps to MAXOPBLOCKS if and only if the file's blocks have fewer than MAXOPBLOCKS bitmap blocks, which is so for any file on a disk with so few |
| FsWide.WideFile | fs.c:407-435 | a consistent disk of MAXOPBLOCKS bitmap blocks whose one file has a block under each of them, so that truncating it logs MAXOPBLOCKS + 1 blocks |
| FsDisk.Fs.Balloc | fs.c:56-78 | the first block with a clear bit is marked, zeroed and logged; none only if all bits are set |
| FsDisk.Fs.FindFree | fs.c:63-76 | the two nested loops find the first clear bit below the size |
| FsDisk.Fs.Bfree | fs.c:81-95 | panics exactly if the bit is clear; clears that bit and no other |
| FsDisk.Fs.Bmap | fs.c:372-400 | the block of a file block, allocated zeroed if there is none; every block in a slot stays there, every data block keeps its bytes, no other inode changes, and what is logged is bounded and is all that changes; none only for a block out of range or on a full disk |
| FsDisk.Fs.Iupdate | fs.c:220-236 | the inode's words on disk, and nothing else |
| FsDisk.Fs.Readi | fs.c:452-476 | -1 exactly for an offset beyond the size or a wrapping range; otherwise the slice of the content, and nothing changes |
| FsDisk.Fs.Writei | fs.c:481-511 | -1 exactly for a range that starts beyond the size or ends beyond the largest file; otherwise the content becomes the splice, no file has a hole, the bitmap is exact, memory and disk agree on every inode, every other file is as before, and the logged blocks are bounded and are all that changes; nothing only on a full disk |
| FsDisk.Fs.WriteBlocks | fs.c:498-504 | the loop of writei, with the accounting of what is logged; it stops short only on a full disk |
| FsDisk.Fs.Itrunc | fs.c:407-435 | the inode is empty in memory and on disk, each of its blocks was freed once without a panic, every other file is as before, and exactly the bitmap blocks of its blocks and the inode's block are logged |
| FsDisk.Fs.FreeEntries | fs.c:421-428 | the loop over the indirect block frees each entry once, and then the block |
| FileWrites.File.WriteChunk | file.c:140-145 | one transaction of filewrite: the splice at the offset, every changed block logged, at most MAXOPBLOCKS of them, and a consistent disk at its end; -1 exactly if the piece does not fit the file; nothing only on a full disk |
| FileWrites.File.Write | file.c:127-153 | the disks before and after each chunk: each step is a transaction within the reservation, and the file is the splice of so many whole chunks, with every other file as it was; all of the data, or the chunks before the first that does not fit, or, only on a full disk, fewer |
| FsHistory.ChunkAdded | file.c:135-152 | one chunk after another is the splice of both, in a chain of transactions |
| FsCrash.SameFilesBehind | mkfs.c:93-108 | consistency and the content of every file depend only on the blocks behind the log |
| FsHistory.MixedFile | file.c:135-152 | with any other operations that leave the file alone between its chunks, the file is after each operation the splice of the chunks there were so far |
| FsHistory.UnionLogs | log.c:145-174 | consecutive operations together log every block that they change |
| FsCrash.CrashedCommits | log.c:192-202 | a run of commits, each of one operation or of several, cut off by a crash after any disk write and recovered, leaves a consistent disk with the files as they were at the last commit whose header was written |
| FsCrash.CrashedTogether | file.c:135-152 | filewrite among other operations, committed in groups as they come, cut off by a crash after any disk write and recovered after any number of recoveries that crash too: the disk is consistent, all files are as they were at one commit, and the written file has the chunks of the groups up to it |
| FsCrash.CrashedWrite | file.c:135-152 | filewrite alone, cut off by a crash after any disk write of any of its transactions, and recovered after any number of recoveries that crash too, leaves a consistent disk on which the file has the first chunks, as many as had their header written, and every other file is as before |
| PipeFile.SamePlace | pipe.c:93 | counting modulo 2^32 does not disturb the place in the ring |
| PipeFile.CountersTell | pipe.c:85 | comparing the wrapped counters tells full, and empty, exactly |
| PipeFile.Pipe.Put | pipe.c:93 | the byte is the last of those accepted |
| PipeFile.Pipe.Get | pipe.c:116 | the byte is the next of those accepted |
| PipeFile.Pipe.Write | pipe.c:78-98 | the bytes accepted grow by a piece of the data; it stops short only when 512 are buffered, and then gives up exactly if the reader is gone or the writer killed |
| PipeFile.Pipe.Read | pipe.c:100-121 | the bytes delivered stay a prefix of those accepted; as many as there are, up to the request, or end of file, or sleep |
| PipeFile.Pipe.Close | pipe.c:59-75 | freed exactly when both ends are closed |
| FreeList.FreeHeap | umalloc.c:33-43 | inserting a block at its place and joining it with the blocks it touches keeps the list circular, ordered by address and without touching neighbours, and loses or duplicates no unit |
| FreeList.RemoveHeap | umalloc.c:76-77 | an exact fit leaves the list and becomes live; no unit is lost, no live blocks overlap |
| FreeList.CutHeap | umalloc.c:78-82 | cutting off the end of a larger block keeps the list and makes the end live |
| FreeList.FreshHeap | umalloc.c:52-58 | memory from sbrk above all the rest becomes a live block of its own |
| FreeList.StopsAt | umalloc.c:30-32 | free's search stops at the place of the block and nowhere else on the ring |
| Umalloc.UnitsEnough | umalloc.c:69 | the block has room for the request if and only if the rounding does not wrap, for requests up to 2^32 - 8 |
| Umalloc.GrantCovers | umalloc.c:46-61 | a block at the end of the memory asked for lies within what sbrk grants if and only if it is below 2^31 bytes; from there on sbrk grants nothing |
| Umalloc.SbrkArgRight | umalloc.c:54 | sbrk is asked for the block's size if and only if that is below 2^31 bytes; otherwise for zero or less |
| Umalloc.Allocator.FindPlace | umalloc.c:30-32 | the search ends, at the highest free block below the one being freed |
| Umalloc.Allocator.Free | umalloc.c:24-44 | the block leaves the live ones, every unit is accounted for, and a free block at least as large is in the list |
| Umalloc.Allocator.Rewire | umalloc.c:33-42 | with the block in the list and joined to its neighbours there, the list is ordered, without touching blocks, and every unit is accounted for again; the block before it is still in the list |
| Umalloc.Allocator.Morecore | umalloc.c:46-61 | at least 4096 units more, and a free block that is large enough; or nothing |
| Umalloc.Allocator.Take | umalloc.c:75-85 | the caller gets a block of exactly the size, apart from all others |
| Umalloc.Allocator.Malloc | umalloc.c:63-90 | a live block of the request's size that was not live before, all others untouched; none only if sbrk gave nothing and no free block is large enough; the loop ends, after at most one morecore; if no free block was large enough the block ends where the memory asked for ends, which is within the memory that sbrk granted if and only if the request is below 2^31 bytes |

## Left out

- Device drivers, boot, interrupts and traps, assembly: the disk is an array of atomically written blocks, exchange is atomic, and time is a parameter.
- Spinlocks and sleep locks as code: a critical section is one step; where the source drops a lock in the middle of an operation, as fork, clone, exec and futex_wait do, the model has separate steps.
- TLB contents and memory ordering: steps are sequentially consistent and invalidation is assumed.
- ELF parsing, argument copying and path lookup: exec is its page directories and its image.
- Out-of-memory, out-of-blocks and no-buffer panics end a run; the model returns a failure there.
- LogFile.Log.EndOp: requires that nobody holds the buffers the commit will read; the source sleeps for them.
- LogFile.Log.Commit: stops with failure when no buffer can be recycled, where the source panics; the condition under which that cannot happen is part of the contract.
- BufferCache.BreadGood: the block is not locked, where the source sleeps until it is not; one device, so the device number is not part of a buffer's identity.
- Bio.Bcache.Bread: the block is not locked, where the source sleeps until it is not.
- FsDisk.Fs.Readi: files only; the device switch is not modelled.
- FsDisk.Fs.Writei: files only; the device switch is not modelled.
- FsDisk.Fs.Bmap: blocks as the buffer cache shows them; reading and releasing buffers is in `Bio`, and log_write is the set of logged numbers.
- Directories, inode allocation and the inode cache's reference counts: what a path names, link counts, and when an unlinked file's blocks are freed are not covered.
- ProcTheorem.NoStarvation: says how many picks can pass a process over, not that a CPU keeps picking; the timer that makes it do so is not modelled.
- Scheduler.DispatchKeeps: waiting times are unbounded numbers; the int in the source would overflow after 2^31 ticks in a queue.
- Lifetimes.StepKeeps: init does not call join, as init.c shows; kernel stacks and open files are not part of a process here.
- thread_create and thread_join: their table of stacks is not modelled; clone and join are.
- ProcWaits.ParentsHear: a process asleep in join may well have a dead child that is not a thread, since join does not look at those.
- Frames.Kmem.Kfree: the link to the next free page is kept beside the page, where the source writes it into the page's first word.
- Futex.NoLostWakeup: no participant is killed and no heap shrinks under a waiter; the word's page is writable, so that waiter and waker compute one key (see `KernelRuns.KeyStable`).
- Futex.BroadcastReachesAll: signals are sent with the mutex held.
- PipeFile.Pipe.Write: one stretch between two sleeps; wakeups are in `ProcFile.Ptable.Wake`.
- Umalloc.Allocator.Malloc: sbrk's answer is a parameter, fresh and above the heap; addresses count headers of 8 bytes, and callers do not write outside their blocks. After a request from 2^31 bytes on, the next sbrk is no longer above the heap, so nothing is said of later calls.
- VirtualMemory.Vm.Spawn: the pages of the image are a parameter, where the source reads them from the file; copyout writes only to the new, private directory, as exec uses it.
- VirtualMemory.Vm.LoadImage: the pages of the image are a parameter, where the source reads them from the file.
- VmExec.SpawnRefines: the pages of the image are a parameter, where the source reads them from the file.
- ProcKill.PidsUnique: ids are unbounded numbers; the int in the source would wrap after 2^31 forks.
- FsCrash.CrashedWrite: nobody else logs blocks in the write's transactions; `FsCrash.CrashedTogether` is the general case.
- FsCrash.CrashedTogether: the operations take effect one after another, where the source interleaves those on different inodes; the inode and buffer locks that make this so are not modelled.
- KernelRuns.KeyStable: the sharing test of fork and the allocation of the slot are one step here, which `Lifetimes.SoleStays` justifies.
