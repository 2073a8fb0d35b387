# A verified model of the kernel

This project models the parts of a small 32-bit x86 kernel in which state is shared and hard to keep right, and
proves what they promise: the memory manager with its self-mapped page tables and slab allocator, threads with their
semaphores, locks and context switch, formatted output with its inverse, and the disk driver with its interrupt
handshake. `dafny verify dfyconfig.toml` checks everything.

Most components come as two or three modules. One defines what the C or assembly code does as functions on a state
(`KernelMemory`, `Slab`, `Scheduler`, `NumberText`, `Format`, `Disk`, `DiskHandshake`); one proves properties of those
functions for every input, every step and every run; and one, whose name ends in `Code`, holds the code itself, with its
loops and its updates in place, and proves that it computes those functions. `Bitmap`, `List`, `Boot`, `Locks`,
`ContextSwitch` and `Division` have the code and its properties in one file.

- **Memory manager.** Memory is a function from addresses to words; `Paging.Walk` is the hardware's translation, and
  `Paging.Reach` adds the access rights of both entries on the way (Intel SDM Volume 3A, sections 4.3 and 4.6). The invariant of `HeapInvariant` ties the bitmaps of the heap and of the kernel
  pool to the page tables of all directories that exist. `Slab` adds arenas and free lists on top of the same state, so
  its properties hold together with those of the pages. `UserPages` has what mapping a user page changes, and
  `UserFrames` whose frames the pages of processes hold. `SlabCode` is the code on free lists that are linked through
  the blocks, whose meaning is in `BlockLists`.
- **Threads.** An event is the code from one switch of threads to the next. `Scheduler` has the ready list, the waiter
  lists and the quanta; `SchedulerEffects` says what each event does to them, `Fairness` how long a ready thread waits
  at most. `SchedulerCode` is the code on linked lists of
  tags, whose meaning is in `ThreadLists`: each thread has one tag, and being on at most one list is a fact about its
  links. `Locks` has the locks with everything that turns interrupts on and off, switches of threads included.
  `ContextSwitch` is the level of registers and stack words.
- **Formatted output.** Characters are their codes. `NumberText` has printnum and strtol, `Format` what a format
  prints. `FormatDirectives` says what an escape means with all its flags and sizes, `StrtolLaws` which texts strtol
  reads, and `FormatLaws` how the two fit together.
- **Disk.** `Disk` and `DiskCode` have the chunk loops against a device with registers and a data port, and the flat
  disk they implement; `DiskHandshake` has the interrupts. `DiskTransfer` joins them with the flat disk, and
  `DeviceTransfer` with the device.

A failed assertion, a panic, a page fault and an access outside of an object all end a run; they are the outcome `Halt`
(or `false` from a method).

## What the proofs show about the code

Where code and comment disagree, the model follows the code. These are results of the proofs, each with its lemma:

- `bitmap_scan` tries only the lowest clear bit of each byte, so it can miss a run that fits (`ScanMissesInnerRun`), and
  its inner loop can leave the bitmap (`ScanLeavesBitmap`). Runs that start on a byte boundary are always found
  (`ScanFindsAlignedRun`). The outer loop looks at a byte before it compares the index, so that exactly the scans that
  panic read the byte behind the bitmap (`BehindIsPanic`). The scan stays inside if and only if some byte's lowest clear
  bit starts a run that is long enough (`InsideExactly`).
- The page count of the pools has 16 bits: the sizes of the pools add up to the free memory if and only if there is
  less than about 256 MiB (`PoolsCoverMemory`), and as the bitmaps count in groups of 8 frames, every page can be handed
  out if and only if the number of pages is a multiple of 16 besides (`FramesCoverMemory`). The pools lie in memory
  that exists if and only if there are at least 2 MiB (`PoolsAreInstalled`).
- `free_pages` does not look at the present bit of what it unmaps. Unmapping a page of a process a second time gives
  back the frame that its old entry names, and keeps all frames with their owners exactly when no page holds that frame
  (`UnmapOwnedExactly`); `UnmappedTwice` is a run after which two pages share a frame. When only present pages are
  unmapped, no run leads there (`UserFramesAreOwned`).
- `sys_free` gives back pages but not their frames. A large allocation of n pages can be made and freed k times exactly
  when the pool has k * n free frames, and then never again (`FramesLeak`).
- `sys_malloc(1024)` finds no size class and runs past the last descriptor (`NoClassFor1024`).
- `thread_unblock` does not exclude a thread that waits for a semaphore; such a call, and only such a call, puts one tag
  on two lists (`UnblockExact`, with a run that gets there in `UnblockWaiterExample`).
- The comment of `spinlock_acquire` says that it disables interrupts to avoid a deadlock. They stay off while a lock is
  held exactly as long as no lock is released inside of another and nobody turns them on, by `sti` or by going on with a
  thread that had them on (`MaskedExactly`). Both happen: `UnmaskedExample` has two locks, and in `SleepingReader` the
  driver of `ide_read` sleeps with its lock and the idle thread executes `sti`. A second thread then stops the kernel,
  as `lock_acquire` does not wait. If no holder blocks, yields or enables interrupts, and no lock is released inside of
  another, `lock_acquire` never finds a lock taken (`RunMasks`, and `PrivateExactly` for each step).
- `cmd_out` announces the command before it sends it, so an interrupt in between counts as the answer: a read then goes
  on to its data without waiting (`EarlyInterrupt`, with a run in `EarlyInterruptExample`).
- The comment of `printnum` allows base 1, with which it comes back only from the number 0 (`PrintnumEnds`,
  `BaseOneNeverEnds`).
- The flag `-` does not align numbers to the left but pads with the character `-`: one of them makes the number its
  negative, two of them end the reading; `RoundTripExact` says exactly which texts are read back. `%d` prints the sign
  before the padding (`SignedRoundTrip`).
- A precision of 0 cannot be written in a format: the 0 is taken for the flag, and `%.0s` prints all of the text
  (`NoPrecisionZero`).
- The comment of `strtol` allows the prefix 0X; the code reads the 0 and stops (`CapitalPrefix`).
- The assertions of `ide_read` and `ide_write` look at the first sector of each command only, so they do not see a
  transfer that runs over the end (`AssertsMissTheEnd` says for which transfers, `LastSectorAndNext` has one).

## Model

| member | source | states |
|---|---|---|
| Bitmaps.Bitmap.Scan | os/ds/bitmap.c:21-57 | the nested loops of bitmap_scan terminate and find what ScanBits says, a run, the panic, or bits behind the end; the first loop looks at a byte before it compares the index, and looks at the byte behind the bitmap exactly when ScanReadsBehind says so |
| Bitmaps.ScanFromExact | os/ds/bitmap.c:25-56 | a found run is clear and is the first of all runs the bytes offer; a panic or an access outside happens only when no offered run fits |
| Bitmaps.BehindIsPanic | os/ds/bitmap.c:26-31 | the byte behind the bitmap is read in exactly the scans that panic |
| Bitmaps.InsideExactly | os/ds/bitmap.c:21-57 | a scan reads nothing behind the bitmap if and only if the lowest clear bit of some byte starts a clear run of the wanted length |
| Bitmaps.ScanFindsAlignedRun | os/ds/bitmap.c:21-57 | a clear run of cnt bits on a byte boundary is enough for the scan to succeed, with a run that starts no later |
| Bitmaps.ScanFindsLongRun | os/ds/bitmap.c:21-57 | any clear run of cnt + 7 bits is enough |
| Bitmaps.ScanForOne | os/ds/bitmap.c:26-39 | for cnt = 1 the scan succeeds if and only if some bit is clear, and returns the lowest one; on a full bitmap, and only then, it reads the byte behind and panics |
| Bitmaps.ScanForNone | os/ds/bitmap.c:44-56 | a count of 0 wraps around, and no bitmap has a run that long |
| Bitmaps.ScanMissesInnerRun | os/ds/bitmap.c:33-55 | a bitmap with a fitting run on which the scan panics |
| Bitmaps.ScanLeavesBitmap | os/ds/bitmap.c:44-50 | a bitmap on which the inner loop tests a bit behind the end |
| Bitmaps.Bitmap.Set | os/ds/bitmap.c:60-70 | exactly the one bit changes; a value other than 0 and 1 fails the assertion |
| Bitmaps.Bitmap.ScanTest | os/ds/bitmap.c:13-18 | the mask test is the bit |
| Bitmaps.MaskIsShift | os/ds/bitmap.c:13-18 | the mask of a bit is BITMAP_MASK shifted by its number |
| Lists.InsertBefore | os/ds/list.c:15-23 | the element is put in front of a node; all lists stay well formed, acyclic and separate, and the others are unchanged |
| Lists.Init | os/ds/list.c:7-13 | a new empty list beside the existing ones |
| Lists.Push | os/ds/list.c:25-28 | the element is in front of the sequence; the other lists are unchanged |
| Lists.Append | os/ds/list.c:30-33 | the element is at the end of the sequence; the other lists are unchanged |
| Lists.Remove | os/ds/list.c:35-41 | from the element alone: it leaves its list, keeps the order of the others, and is on no list afterwards |
| Lists.Pop | os/ds/list.c:43-48 | the first element of a list that is not empty comes out |
| Lists.Find | os/ds/list.c:50-60 | terminates with membership |
| Lists.Len | os/ds/list.c:62-71 | terminates with the length |
| Lists.Empty | os/ds/list.c:73-76 | true exactly for the empty sequence |
| Pools.PoolsAreApart | os/kernel/mem.c:27-74 | for every memory size, the pools overlap neither each other nor the first 2 MiB, bitmaps cover only frames of their pool and miss at most 7, and the bitmaps lie apart below the main thread's page |
| Pools.PoolsAreHalves | os/kernel/mem.c:35-50 | the pools have the same number of pages, the user pool one more if it is odd |
| Pools.PoolsAreInstalled | os/kernel/mem.c:33-50 | the pools lie in installed memory if and only if there are at least 2 MiB |
| Pools.PoolsCoverMemory | os/kernel/mem.c:35-50 | the sizes of the two pools add up to the free memory if and only if it is less than the 16-bit page count can hold |
| Pools.FramesCoverMemory | os/kernel/mem.c:39-50 | the bitmaps have a bit for every page above 2 MiB if and only if the page count fits and is a multiple of 16 |
| Paging.RecursiveMapping | os/kernel/mem.c:118-128 | pde_addr and pte_addr, pushed through the walk, reach exactly the entries that translate the address |
| Paging.V2pIsWalk | os/kernel/mem.c:193-197 | addr_v2p is the hardware's translation for every present page |
| Paging.SetPteTranslations | os/kernel/mem.c:138-144 | an insertion changes exactly the translations that go through the entry it writes, seen from any directory, and that entry allows user mode and writing |
| Paging.SetPteInNewTableTranslations | os/kernel/mem.c:145-150 | an insertion with a fresh table gives the 4 MiB around the address exactly the new page, open to user mode and to writing, and changes neither translations nor rights elsewhere |
| Paging.ClearPteTranslations | os/kernel/mem.c:163-168 | a removal takes away exactly the translations that go through the entry, and leaves the rights of the others |
| Paging.ZeroingStaysOnFrame | os/kernel/mem.c:148 | while the new table is zeroed through its own mapping, the writes keep hitting it |
| Boot.BootMemory.SetupPage | os/boot/loader.S:232-282 | the loops write the boot directory and the first page table, and nothing else |
| Boot.FirstMegabyte | os/boot/loader.S:247-269 | directory entries 0 and 768 share a table: the first megabyte is mapped at its own addresses and at 0xc0000000, both with all rights |
| Boot.SetupIsBooted | os/boot/loader.S:232-282 | the boot tables satisfy the invariant that all runs start from |
| HeapInvariant.FreshFrame | os/kernel/mem.c:77-85 | an allocated frame was free, lies in the pool, and is the only one whose mark changes; failure means that the pool is exhausted |
| HeapInvariant.FreshUserFrame | os/kernel/mem.c:77-85 | the same as FreshFrame for the user pool |
| HeapInvariant.FreeUndoesAlloc | os/kernel/mem.c:77-85 | free_physical_pages picks the pool and the bit that alloc_physical_pages set, for both pools: together they change nothing |
| HeapInvariant.Coherent | os/kernel/proc.c:55-67 | every directory translates the kernel half as the boot directory does |
| HeapInvariant.NoAliasing | os/kernel/mem.c:346-363 | marked heap pages are mapped in every directory, to marked kernel frames, no two to the same one |
| HeapInvariant.MapPagesKeeps | os/kernel/mem.c:355-361 | the loop of malloc_pages keeps the invariant and touches only the entries and frame bits of its pages |
| HeapSteps.MallocPagesKeeps | os/kernel/mem.c:346-363 | malloc_pages keeps the invariant; its pages were free and get frames that were free |
| HeapSteps.MallocPagesSucceeds | os/kernel/mem.c:346-363 | it succeeds if and only if the scan finds a run and the pool has as many free frames |
| HeapSteps.FreePagesKeeps | os/kernel/mem.c:365-399 | on allocated pages no assertion of free_pages fails, it picks the kernel pool, and gives back exactly their frames |
| HeapSteps.FreeUndoesMalloc | os/kernel/mem.c:346-399 | free_pages after malloc_pages restores both bitmaps |
| HeapRuns.MapUserPageKeeps | os/kernel/mem.c:437-440 | mapping a user page, with or without a new page table, keeps the kernel's invariant |
| HeapRuns.UnmapUserPageKeeps | os/kernel/mem.c:376-385 | so does unmapping one |
| HeapRuns.FreePageSucceeds | os/kernel/mem.c:376-397 | one round of free_pages passes its assertions if and only if the address is that of a page with a table and its entry names a frame of the pool of the branch |
| UserPages.MapUserPageExact | os/kernel/mem.c:130-151 | after get_a_page the user page leads to a user frame that was free, user mode may read and write it, and no other translation or right below the self-mapped window has changed, under any directory, with or without a new page table |
| UserPages.MapsInActive | os/kernel/proc.c:35-45 | after page_dir_activate, get_a_page maps in the directory that was activated, and no other changes |
| UserPages.UnmapUserPageExact | os/kernel/mem.c:378-385 | after one round of free_pages the user page has no translation, and no other translation or right has changed |
| UserPages.RunKeepsPrivate | os/kernel/mem.c:130-151 | in every run no two directory entries of the user half share a page table, and all of them allow user mode and writing |
| UserPages.UserPagesArePrivate | os/kernel/mem.c:130-168 | after any run from boot, mapping or unmapping a user page leaves the translations and rights of all other pages and processes as they were |
| UserFrames.MapOwned | os/kernel/mem.c:437-440 | mapping a page in a process keeps all present user pages of all processes on marked frames, each on its own |
| UserFrames.UnmapOwnedExactly | os/kernel/mem.c:378-385 | one round of free_pages keeps frames and pages one to one, and marked, if and only if the page is present or no present page holds the frame that its entry names |
| UserFrames.StepKeepsOwned | os/kernel/mem.c:130-399 | every operation, of the kernel and of processes, keeps them so, if only present user pages are unmapped |
| UserFrames.RunKeepsOwned | os/kernel/mem.c:130-399 | so does every run |
| UserFrames.UserFramesAreOwned | os/kernel/mem.c:376-440 | after any such run from boot, user mode may read and write every present user page, which holds a frame that is marked in the user pool, is no frame of the kernel, and belongs to no other page of any process |
| UserFrames.UnmappedTwice | os/kernel/mem.c:193-212 | a run of get_a_page and free_pages, with one page unmapped twice, that ends with two pages on one frame |
| HeapRuns.CreatePageDirKeeps | os/kernel/proc.c:55-67 | a directory built by create_page_dir joins the coherent ones |
| HeapRuns.StepKeeps | os/kernel/mem.c:130-399 | every operation keeps the invariant, under any active directory |
| HeapRuns.RunKeeps | os/kernel/mem.c:130-399 | so does every run |
| HeapRuns.KernelHalfForever | os/kernel/proc.c:55-67 | after any run from boot, all directories agree on 0xc0000000..0xffbfffff |
| HeapRuns.HeapNeverAliases | os/kernel/mem.c:346-399 | after any run from boot, addresses in different heap pages have different physical addresses, in marked frames |
| KernelMemoryCode.Machine.constructor | os/kernel/mem.c:27-74 | mem_pool_init gives a layout that the invariant accepts, with empty bitmaps |
| KernelMemoryCode.Machine.FreePhysicalPage | os/kernel/mem.c:200-212 | picks the pool by address and clears the frame's bit there |
| KernelMemoryCode.Machine.InsertPageTable | os/kernel/mem.c:130-151 | reached only through pde_addr and pte_addr, the stores are those of the specification |
| KernelMemoryCode.Machine.RemovePageTable | os/kernel/mem.c:163-168 | clears the present bit of the entry that translates the address |
| KernelMemoryCode.Machine.GetUserPage | os/kernel/mem.c:437-440 | frame and mapping of get_a_page compute the specification |
| KernelMemoryCode.Machine.V2p | os/kernel/mem.c:193-197 | under a self-mapped directory it comes back exactly for addresses with a page table, with the hardware's translation for a present page, and for an absent one with the frame that its entry still names |
| KernelMemoryCode.Machine.MallocPages | os/kernel/mem.c:346-363 | scan, marking loop and mapping loop compute the specification |
| KernelMemoryCode.Machine.FreePages | os/kernel/mem.c:365-399 | both loops of free_pages compute the specification, with its assertions |
| KernelMemoryCode.Machine.CreatePageDir | os/kernel/proc.c:55-67 | the copy through the virtual addresses builds the new directory |
| SlabInvariant.BlockToArena | os/kernel/mem.c:153-161 | block_to_arena inverts arena_to_block, and a block lies behind the header inside its page |
| SlabInvariant.FillIs | os/kernel/mem.c:277-281 | the loop over a new arena never fails its assertion and adds exactly the arena's blocks |
| SlabInvariant.FillOrder | os/kernel/mem.c:277-281 | the blocks come behind the list in the order of their addresses |
| SlabInvariant.DrainIs | os/kernel/mem.c:322-326 | the loop over an empty arena never fails its assertion and removes exactly its blocks |
| SlabSteps.NoClassFor1024 | os/kernel/mem.c:257-261 | every small size but 1024 has a class |
| SlabSteps.LeastClass | os/kernel/mem.c:257-261 | the search finds the smallest class whose blocks are larger than the size |
| SlabSteps.Doubling | os/kernel/mem.c:334-344 | block sizes start with 16 and double from class to class |
| SlabSteps.ArenaIsFull | os/kernel/mem.c:340 | an arena has as many blocks as fit behind its header |
| SlabSteps.SysFreeKeeps | os/kernel/mem.c:295-332 | sys_free of a live pointer fails no assertion, keeps the invariant, and ends exactly this pointer's life |
| SlabRuns.SysMallocKeeps | os/kernel/mem.c:214-293 | for every size: null, the overrun for 1024, or one new live pointer, whose room is that of the smallest class or of as few pages as possible; the invariant is kept |
| SlabRuns.SysMallocSucceeds | os/kernel/mem.c:241-286 | sys_malloc returns a pointer if and only if the class has a free block or malloc_pages has a page, or, for a large size, malloc_pages has the pages |
| SlabRuns.SysMallocNeeds | os/kernel/mem.c:241-286 | the same in terms of the bitmaps: a run that the scan finds, and as many free frames |
| SlabRuns.FirstBlockOut | os/kernel/mem.c:285-292 | a small allocation takes the first free block of its class and no page, if there is one |
| SlabRuns.FreedBlockLast | os/kernel/mem.c:318-320 | a freed block goes to the end of the list: blocks are reused in the order in which they were freed |
| SlabRuns.LargeRound | os/kernel/mem.c:241-317 | an allocation of n pages followed by its sys_free leaves everything as it was but the pool, which has n free frames less |
| SlabRuns.FramesLeak | os/kernel/mem.c:241-317 | this can be repeated k times if and only if the scan finds the run and the pool has k * n free frames |
| SlabRuns.LiveDisjoint | os/kernel/mem.c:214-293 | live pointers, small and large, give access to disjoint bytes |
| SlabRuns.LiveAvoidsHeaders | os/kernel/mem.c:246-251 | live memory overlaps no arena header |
| SlabRuns.LiveAvoidsFreeNodes | os/kernel/mem.c:277-292 | live memory overlaps no link of a free list |
| SlabRuns.EveryArenaIsLive | os/kernel/mem.c:316-328 | an arena that exists has a live block: empty ones have been returned |
| SlabRuns.NothingLive | os/kernel/mem.c:295-332 | without live pointers there are no arenas, no free blocks, and no marked pages but those taken directly |
| SlabRuns.StepKeeps | os/kernel/mem.c:214-332 | malloc, free, malloc_pages and free_pages, creating and activating directories, and mapping and unmapping user pages keep the invariant of pages and slabs together; malloc makes exactly one pointer live, with its room, and free ends exactly one |
| SlabRuns.AllFreedRestoresHeap | os/kernel/mem.c:295-332 | any run of malloc and free, mixed with what processes do to their pages and directories, that ends with nothing live restores the heap's bitmap and empties the lists |
| SlabCode.BlockDescInit | os/kernel/mem.c:334-344 | the loop gives the block sizes and counts that the invariant uses, and empty lists that share no node |
| SlabCode.KernelHeap.SysMalloc | os/kernel/mem.c:214-293 | the code of sys_malloc, with list_find, list_append and list_pop on entries inside the free blocks, computes the specification on the bitmaps and page tables of the machine; the lists stay well linked and share no node |
| SlabCode.KernelHeap.SysFree | os/kernel/mem.c:295-332 | so does the code of sys_free, which takes the blocks of an empty arena off their list through their own entries |
| SlabCode.LiveIsOff | os/kernel/mem.c:319 | a live pointer is on no free list, so sys_free may link it |
| BlockLists.NodeUnlinked | os/kernel/mem.c:277-281 | a block that is on no list has an entry that is linked nowhere, so it can be appended |
| BlockLists.RemoveBlock | os/kernel/mem.c:322-326 | list_remove on the entry of a block takes the block out of the sequence of its list, wherever it is |
| SchedulerInvariant.StepKeeps | os/kernel/thread.c:74-182 | no interleaving breaks the run queue or fails an assertion, except a sema_up on a semaphore that has its token, which always does |
| SchedulerInvariant.RunKeeps | os/kernel/thread.c:74-182 | the invariant holds in every state of every run |
| SchedulerInvariant.EachTagOnOneList | os/kernel/sync.c:18-44 | the running thread is on no list, and no general_tag is on two |
| SchedulerInvariant.IdleSleeps | os/kernel/thread.c:91-93 | when the ready list is empty the idle thread can be woken, so schedule never pops an empty list |
| SchedulerInvariant.UnblockExact | os/kernel/thread.c:140-152 | waking a sleeping thread keeps the invariant if and only if it is on no waiter list |
| SchedulerInvariant.UnblockWaiterExample | os/kernel/thread.c:140-152 | a run from the initial state after which thread_unblock puts one tag on two lists |
| SchedulerInvariant.SemaphoreRun | os/kernel/sync.c:18-44 | tokens are conserved and at most one; a token beside waiting threads belongs to a woken one that is ready or running |
| SchedulerInvariant.InitialState | os/kernel/thread.c:184-194 | the state after kthread_init satisfies the invariant |
| SchedulerInvariant.SemaInitKeeps | os/kernel/sync.c:5-9 | a new semaphore with value 0 or 1 keeps the invariant |
| Fairness.BoundedDispatch | os/kernel/thread.c:74-102 | a thread at position p runs within p + 1 + u calls of schedule, u counting the pushes in front |
| Fairness.BoundedTicks | os/kernel/clock.c:39-50 | without pushes it runs after at most the sum of (ticks + 1) timer interrupts of the threads before it |
| Fairness.StepBudget | os/kernel/clock.c:39-50 | every timer interrupt uses up one unit of that budget, and nothing adds to it |
| SchedulerEffects.StepMoves | os/kernel/thread.c:74-182 | in every state of every run: what each event does to the queue, to the status, quantum and elapsed ticks of all threads, and to the semaphores; a preempted thread gets its priority as ticks, a new one starts with that of its argument |
| SchedulerEffects.Preempted | os/kernel/thread.c:80-86 | the timer interrupt that finds no tick left gives the thread a whole quantum and puts it last |
| SchedulerEffects.QuantumExact | os/kernel/clock.c:39-50 | in every run a thread is preempted exactly once for every priority + 1 timer interrupts that find it running |
| SchedulerEffects.KeepsProcessor | os/kernel/clock.c:39-50 | a thread that neither sleeps nor yields keeps the processor as long as its ticks last |
| SchedulerEffects.WholeQuantum | os/kernel/clock.c:39-50 | from one preemption to the next, such a thread runs for exactly as many timer interrupts as its priority and one more |
| SchedulerEffects.WokenInOrder | os/kernel/sync.c:22-37 | waiters of a semaphore are woken in the order in which they came, one by each sema_up |
| SchedulerCode.Handle | os/kernel/thread.c:74-182 | in every reachable state the code, working on linked tags, does what the specification says for every event; all lists stay well linked, no tag is linked twice, and only a sema_up on a semaphore with its token fails |
| SchedulerCode.KthreadInit | os/kernel/thread.c:184-194 | the lists and threads that kthread_init leaves are the initial state |
| SchedulerCode.Kernel.DoSchedule | os/kernel/thread.c:74-102 | list_find, list_append and list_pop on tags, and the updates of status and ticks, refine the specification |
| SchedulerCode.Kernel.ThreadBlock | os/kernel/thread.c:130-138 | the same for thread_block |
| SchedulerCode.Kernel.ThreadUnblock | os/kernel/thread.c:140-152 | the same for thread_unblock, with its assertions and list_push |
| SchedulerCode.Kernel.ThreadYield | os/kernel/thread.c:173-182 | the same for thread_yield |
| SchedulerCode.Kernel.TimerIntrHandler | os/kernel/clock.c:39-50 | the same for the quantum accounting |
| SchedulerCode.Kernel.SemaDown | os/kernel/sync.c:18-31 | one pass of the loop: take the token, or link the tag to the waiters and block |
| SchedulerCode.Kernel.SemaUp | os/kernel/sync.c:33-44 | unlink the first waiter and wake it, set the token, with both assertions |
| SchedulerCode.Kernel.SemaInit | os/kernel/sync.c:5-9 | a new waiter list beside the others |
| ThreadLists.TagUnlinked | os/kernel/thread.c:144-149 | a thread that is neither ready nor waiting has a tag that is linked nowhere, so it can be linked |
| ThreadLists.UnlinkedTag | os/kernel/sync.c:37-40 | a tag that has been popped is linked nowhere: its thread is on no list |
| SchedulerCode.Kernel.ThreadStart | os/kernel/thread.c:111-128 | a new thread with a new tag at the end of the ready list, as SchedulerEffects.StepMoves says |
| Locks.AcquireExact | os/kernel/sync.c:46-55 | lock_acquire fails exactly when another thread holds the lock; otherwise only the caller's count grows, and the first one disables interrupts |
| Locks.ReleaseExact | os/kernel/sync.c:57-68 | lock_release fails exactly when the caller does not hold the lock; otherwise it undoes one acquire, and the last one enables interrupts |
| Locks.AcquireRelease | os/kernel/sync.c:46-68 | an acquire and a release restore the locks |
| Locks.RunCounts | os/kernel/sync.c:46-68 | after any run with switches between threads, a thread holds a lock as often as it has acquired it more than released it |
| Locks.ReleaseMasksExactly | os/kernel/spinlock.c:28-51 | lock_release by itself keeps interrupts off while a lock is held, except exactly when it is the last release of one lock and another is held |
| Locks.MaskedExactly | os/kernel/intr.c:7-45 | of all that changes locks or the interrupt flag, exactly three things turn interrupts on while a lock is held: such a release, sti or set_intr_status, and a switch to a thread that had them on |
| Locks.PrivateExactly | os/kernel/thread.c:130-182 | interrupts stay off and only the running thread holds locks, if and only if no holder blocks, yields, enables interrupts or releases one lock inside of another |
| Locks.FlagComesBack | os/kernel/thread.c:130-138 | a thread comes back from thread_block, thread_yield or the timer with the interrupt flag it had, whatever the others have done |
| Locks.RunMasks | os/kernel/spinlock.c:14-51 | in runs in which no holder does so, this holds at the end, and lock_acquire does not panic on any lock |
| Locks.UnmaskedExample | os/kernel/spinlock.c:28-51 | a run from free locks: two are taken, one is given back, and interrupts are on while the other is held |
| Locks.SleepingReader | os/kernel/ide.c:187-208 | ide_read takes its lock and sleeps, the idle thread enables interrupts: they are on while the lock is held, and a second lock_acquire panics |
| Locks.Processor.SpinlockAcquire | os/kernel/spinlock.c:14-25 | after the test of holding, the spin loop on xchg ends with its first round |
| Locks.Processor.LockAcquire | os/kernel/sync.c:46-55 | on one lock of many in memory: the specification for that lock, and the others are untouched |
| Locks.Processor.LockRelease | os/kernel/sync.c:57-68 | on one lock of many in memory: the specification for that lock, and the others are untouched |
| ContextSwitch.Machine.SwitchTo | os/kernel/switch.S:15-39 | the instructions, one by one, have the effect that the other lemmas use |
| ContextSwitch.Machine.ThreadCreate | os/kernel/thread.c:55-69 | the stack frame and context of a new thread |
| ContextSwitch.MainThread | os/kernel/thread.c:154-161 | the main thread, running on its own page, is a state that the runs can start from |
| ContextSwitch.CreateKeeps | os/kernel/thread.c:55-69 | a new thread in a fresh page is suspended at its entry, and no other thread is disturbed |
| ContextSwitch.SwitchKeeps | os/kernel/switch.S:15-39 | all other threads stay suspended with what they left |
| ContextSwitch.Resumes | os/kernel/switch.S:28-39 | the thread switched to has its registers, its stack and its return address, and running_thread() is that thread |
| ContextSwitch.SelfSwitch | os/kernel/switch.S:15-39 | a thread that switches to itself just returns |
| ContextSwitch.RunKeeps | os/kernel/switch.S:15-39 | in every run of switches, creations and local steps, a suspended thread keeps what it left |
| ContextSwitch.RoundTrip | os/kernel/switch.S:15-39 | a thread that is switched back to returns from its own call, with all registers and its stack as they were |
| ContextSwitch.FirstEntry | os/kernel/thread.c:55-69 | the first switch to a new thread enters its function with (func, arg) in the argument slots |
| Division.DoDiv | os/include/x86.h:8-21 | the two-step division is exact for all 64-bit numbers, and no divl overflows |
| NumberText.DigitsDenote | os/kernel/printfmt.c:37-52 | the printed digits are digits of the base and denote the number |
| NumberText.NoLeadingZero | os/kernel/printfmt.c:42-51 | there are no more digits than needed |
| NumberText.PrintnumEnds | os/kernel/printfmt.c:42-49 | the nested calls of printnum come to an end if and only if the base is at least 2 or the number is 0 |
| NumberText.BaseOneNeverEnds | os/kernel/printfmt.c:42-49 | with base 1, printing 1 calls itself with 1 for ever |
| NumberText.RoundTrip | os/kernel/string.c:197-252 | what strtol with base 8, 10 or 16 makes of what printnum prints, for any width and each of the three paddings: all of the text and the 32-bit number; with one '-' in front its negative; with two nothing |
| NumberText.RoundTripExact | os/kernel/string.c:197-252 | exactly when all of the text is read as the 32-bit value of the number, and exactly when as the number itself; for padding '-' that is a width of at most the digits, or one more and a number that is its own negative |
| NumberText.SignedRoundTrip | os/kernel/printfmt.c:226-233 | exactly when strtol reads all of a printed signed number as its 32-bit value, for each padding |
| StrtolLaws.Reads | os/kernel/string.c:197-252 | strtol takes blanks and tabs, a sign, the prefix of the base and the digits below it, whatever follows, and gives their 32-bit value with the sign; base 0 means 16, 8 or 10 by the prefix |
| StrtolLaws.DigitValues | os/kernel/string.c:227-238 | a digit below 10 is written in one way, one from 10 on as a small or a capital letter |
| StrtolLaws.CapitalsReadBack | os/kernel/string.c:233-235 | a number in capital hexadecimal digits is read back |
| StrtolLaws.CapitalPrefix | os/kernel/string.c:190-216 | the prefix 0X is read as the number 0 |
| NumberCode.SprintBuf.Putch | os/kernel/printfmt.c:290-296 | the buffer holds the stream as far as it fits, everything is counted, and no other memory changes |
| NumberCode.SprintBuf.PrintNum | os/kernel/printfmt.c:37-52 | the recursion terminates and puts the padded digits, for all bases and numbers for which it can |
| NumberCode.StrToLong | os/kernel/string.c:197-252 | the loops of strtol compute the value and the end |
| Format.LiteralRun | os/kernel/printfmt.c:123-129 | text without '%' prints itself |
| Format.UnknownIsLiteral | os/kernel/printfmt.c:269-273 | an unknown or cut-off escape is printed as it stands |
| Format.DoubledPrints | os/kernel/printfmt.c:264-266 | a text with every '%' doubled prints itself |
| Format.FieldExact | os/kernel/printfmt.c:203-223 | a %s field has the wanted width or more, holds exactly the shown characters at one end, and pads the rest |
| Format.StringFormat | os/kernel/printfmt.c:197-199 | the other nested format prints the message itself |
| Format.ErrorFormat | os/kernel/printfmt.c:194-196 | the nested format of %e prints the text that the model uses for it |
| Format.DecimalReadsBack | os/kernel/printfmt.c:226-233 | strtol reads back what "%d" prints, for every int |
| Format.Concat | os/kernel/printfmt.c:117-276 | a format without a cut-off escape can be printed in two parts, the second going on with the remaining arguments |
| FormatLaws.UnsignedReadsBack | os/kernel/printfmt.c:236-261 | strtol in the base of the conversion reads back what %u, %o and %x print |
| FormatLaws.PointerReadsBack | os/kernel/printfmt.c:248-253 | strtol accepts what %p prints, with base 16 and with base 0 |
| FormatLaws.WidthPrints | os/kernel/printfmt.c:140-158 | a width in the format, with or without the flags 0 and -, is read as the number it denotes, and used |
| FormatLaws.StarIsWidth | os/kernel/printfmt.c:160-162 | a '*' is the same as writing the argument's value as the width |
| FormatLaws.WidthReadsBack | os/kernel/printfmt.c:140-261 | a padded number has exactly the wanted width, or that of its digits; what strtol makes of it, for each flag |
| FormatDirectives.DirectiveReads | os/kernel/printfmt.c:131-181 | an escape with any flag, width, precision, stars and number of l is read as it is meant, wherever it stands |
| FormatDirectives.ArgumentsTaken | os/kernel/printfmt.c:131-266 | in any escape, whatever stands in it and in which order, each star takes one argument, and the conversion none for %%, two for a number with two l or more, one else |
| FormatDirectives.PrintsOn | os/kernel/printfmt.c:117-276 | behind an escape the format goes on with the arguments behind those it has taken |
| FormatDirectives.StringThenNumber | os/kernel/ide.c:253 | "%s%d" prints the text of the first argument and the number of the second |
| FormatDirectives.NumbersPrinted | os/kernel/printfmt.c:225-263 | %d, %u, %o, %x and %p with any flags print digits without leading 0 that denote the value of one or two argument words, in a field of the width that was meant |
| FormatDirectives.TextsPrinted | os/kernel/printfmt.c:183-223 | %c prints its argument, %% itself, and %s the text or "(null)", cut at the precision and padded to the width on the side of the flag |
| FormatDirectives.CleanExact | os/kernel/printfmt.c:212-217 | with # exactly the characters that cannot be printed become ? |
| FormatDirectives.ErrorsPrinted | os/kernel/printfmt.c:188-200 | %e prints the message of the error whatever its sign, or its number |
| FormatDirectives.NoPrecisionZero | os/kernel/printfmt.c:136-166 | %.0s prints all of the text |
| FormatCode.ParseEscape | os/kernel/printfmt.c:131-181 | the switch over the flags computes width, precision and flags |
| FormatCode.StrNLen | os/kernel/string.c:34-40 | the loop gives how much of a text the precision lets through |
| FormatCode.PrintString | os/kernel/printfmt.c:203-223 | the three loops of %s put the field |
| FormatCode.Vprintfmt | os/kernel/printfmt.c:117-276 | vprintfmt terminates on every format, its rewinding lands directly behind the escape's own '%', and it puts what the format prints |
| FormatCode.Vsnprintf | os/kernel/printfmt.c:329-339 | returns the full length, stores the first min(length, size - 1) characters and a NUL, and changes nothing else; -E_INVAL for a null buffer or size 0 |
| Disk.ChunksPartition | os/kernel/ide.c:198-204 | the commands partition the interval of sectors: each sector is in exactly one, and all but the last have 256 |
| Disk.AssertsExact | os/kernel/ide.c:61-64 | the assertions hold for all commands if and only if the last one starts on the disk |
| Disk.AssertsMissTheEnd | os/kernel/ide.c:61-64 | the assertions hold although some command has a sector behind the end if and only if the last command starts on the disk and the last sector does not lie on it |
| Disk.LastSectorAndNext | os/kernel/ide.c:61-64 | two sectors from the last one of the 80 MiB on are such a transfer |
| Disk.DecodeEncode | os/kernel/ide.c:61-75 | the device reads out of the registers what select_sector was given, 0 standing for 256, and the bits for lba addressing and the two fixed ones are set (ATA/ATAPI-6, section 8) |
| Disk.TransferMatches | os/kernel/ide.c:83-103 | the transfer routines move as many bytes as the command has |
| Disk.ReadAfterWrite | os/kernel/ide.c:187-361 | a read returns what a write stored, and other sectors are as before |
| Disk.LastWriteWins | os/kernel/ide.c:329-361 | after any run of writes a sector holds the data of the last write that covers it |
| DiskCode.Channel.SelectSector | os/kernel/ide.c:61-75 | the five register writes |
| DiskCode.Channel.SelectDisk | os/kernel/ide.c:53-59 | the device register names the drive, with lba addressing |
| DiskCode.Channel.ReadFromSector | os/kernel/ide.c:83-92 | takes exactly the bytes that the device has for the command |
| DiskCode.Channel.WriteToSector | os/kernel/ide.c:94-103 | gives exactly the bytes that the device wants |
| DiskCode.Channel.IdeRead | os/kernel/ide.c:187-220 | completes exactly for transfers on the disk, and then the buffer holds the sectors, nothing else changes, and the commands are the partition |
| DiskCode.Channel.IdeWrite | os/kernel/ide.c:329-361 | completes exactly for transfers on the disk, and then the disk is the flat disk after the write; other sectors and the other drive never change |
| DiskHandshake.StepKeeps | os/kernel/ide.c:77-81 | every step of the driver and every interrupt keeps one token per command, in expecting_intr or in the semaphore |
| DiskHandshake.RunKeeps | os/kernel/ide.c:363-376 | the assertions of sema_up and sema_down hold for any timing of interrupts |
| DiskHandshake.ChunksStartClean | os/kernel/ide.c:198-218 | expecting_intr implies that the semaphore is 0; each round starts with both 0 and nobody waiting |
| DiskHandshake.OneUpPerCommand | os/kernel/ide.c:363-376 | at most one sema_up for each command that cmd_out has announced, and a read takes data only after an interrupt since its command was announced |
| DiskHandshake.ReadyBeforeData | os/kernel/ide.c:210-215 | in every run data moves only directly behind a busy_wait that has found the device ready, in reads and in writes |
| DiskHandshake.EarlyInterrupt | os/kernel/ide.c:77-81 | a read that sends its command gets to the data without a further interrupt if and only if one has come between flag and command; otherwise it sleeps |
| DiskHandshake.EarlyInterruptExample | os/kernel/ide.c:206-215 | a run in which a read takes data although no interrupt has come since its command was sent |
| DiskHandshake.TransferExact | os/kernel/ide.c:187-361 | a finished transfer has used one command, one interrupt and one sema_down for each chunk |
| DiskHandshake.InterruptWakes | os/kernel/sync.c:33-44 | no wakeup is lost: a sleeping driver has an interrupt to come, which lets it go on |
| DiskHandshake.RepeatedInterrupt | os/kernel/ide.c:370-375 | a repeated interrupt has no effect |
| DiskHandshake.TransferEnds | os/kernel/ide.c:187-361 | a transfer ends after at most nine steps per chunk if every command is answered |
| DiskHandshakeCode.IdeChannel.AnnounceCommand | os/kernel/ide.c:79 | the store to expecting_intr is the step of the specification that announces the command |
| DiskHandshakeCode.IdeChannel.SendCommand | os/kernel/ide.c:80 | the write to the command register is the step that sends it |
| DiskHandshakeCode.IdeChannel.CmdOut | os/kernel/ide.c:77-81 | a run of these two steps in this order, with or without an interrupt in between |
| DiskHandshakeCode.IdeChannel.HdIntrHandler | os/kernel/ide.c:363-376 | the handler's effect, with the assertions of sema_up proved |
| DiskHandshakeCode.IdeChannel.SemaDown | os/kernel/sync.c:18-31 | one pass of sema_down on disk_done, with its assertions proved |
| DeviceTransfer.TransferDelivers | os/kernel/ide.c:61-103 | registers, data port and handshake together: from every reachable state and with interrupts at any time, no assertion or device error occurs in a transfer that is on the disk; a finished read has put exactly the sectors into the buffer, a finished write the buffer onto the drive, and the other drive is as before |
| DeviceTransfer.AdvanceLinked | os/kernel/ide.c:187-361 | each step against the device, the bytes through the port included, does to the drive what the step on the flat disk does |
| DiskTransfer.AdvanceKeeps | os/kernel/ide.c:187-376 | on the flat disk, after every step and interrupt exactly the sectors counted so far have been moved |

## Left out

- The file system (os/kernel/fs.c, os/kernel/inode.c, os/kernel/file.c): unfinished, or disk input and output with printing.
- partition_scan, identify_disk and ide_init: they probe devices; the recursion depends on what is on the disk.
- The ring buffer os/ds/ioqueue.c, a bounded queue on a lock.
- Console, keyboard, panic screen, segment descriptors, os/boot/mbr.S, interrupt stubs: hardware plumbing.
- Port input and output, the waiting inside busy_wait, TLB flushes: abstract steps of the device or the processor. The result of busy_wait is a parameter in DiskHandshake and the device's error report in DiskCode.
- The device takes a whole command at a time; data requests between its sectors are not modelled. In DeviceTransfer its data passes the port in one step; the loops over words are in DiskCode.
- memset and memcpy on pages: one step each; ZeroingStaysOnFrame justifies it for the page table that is zeroed through itself.
- Masks and shifts by constants on addresses are written as division and remainder.
- Contents of heap pages: the entries of free blocks are linked objects, one for each address of the heap, and arena headers are values by page; neither is a word of the function that models memory. That they do not overlap with what callers own is LiveAvoidsHeaders and LiveAvoidsFreeNodes.
- SlabCode.KernelHeap.SysFree: a block that is already on a free list, which list_append would link a second time.
- sys_malloc for a user thread's small blocks: the code does not separate them from the kernel's. The large path for users is malloc_pages with the other pool.
- get_a_page on kernel addresses, and the per-process bitmaps of user addresses.
- The value that malloc_pages returns when the bitmaps are exhausted: the scan panics before it.
- thread_list_all, the names, file tables and user stacks of threads; process_start and the jump to user mode.
- The locks that sys_malloc, sys_free, get_a_page, ide_read and ide_write take: module Locks has their effect, and runs of the memory manager and of the disk have one operation after the other.
- The scalar fields of thread structures and semaphores are values in a map in SchedulerCode; their tags and lists are linked in memory, and to_struct is the map from tags to threads.
- Scheduler.Step: interrupts between the instructions of a function that runs with interrupts off are not events, and thread_start, which leaves them on, is one event.
- The loop of sema_down is modelled pass by pass, one event for each, because the thread switches in between.
- xchg on several processors: there is one.
- The width of int in widths and precisions of formats, and in the count of vsnprintf: unbounded here.
- FormatCode.PrintError: prints the text of the nested printfmt call itself, instead of running vprintfmt again on a constant format; Format.ErrorFormat and Format.StringFormat show that the text is the same.
- Overlap of a printed string, or of the format, with the buffer of vsnprintf.
- list_traversal and list_print: a callback, and printing.
