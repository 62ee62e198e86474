# A verified model of the kernel's memory stack, scheduler and locks

This project models the parts of the kernel whose correctness depends on many structures
agreeing with each other, and proves that they do, in every reachable state:

- the buddy frame allocator (`Blocks`, `BuddyForest`, `FrameIndex`, `FrameManager`): a pure forest of
  power-of-two blocks, and the object with bins and three tables that refines it;
- the page directory and the virtual memory manager (`Paging`, `Batching`, `PageDirectory`, `Access`, `Spaces`,
  `Fork`, `Vmm`, `VmRuns`, `VmServe`, `UnsafeFork`): the two-level table of section 4.3 of the Intel SDM, Volume 3A,
  with the access rights of section 4.6, the batch and commit layer, `new_pages` and `remove_pages`, fork, the
  kernel's tables, and the invariant that ties every directory to the allocator;
- the loader's memory sections (`Sections`, `Loader`);
- the scheduler pools: as values (`Pools`, `SchedulerRuns`, `Fairness`), and as the kernel keeps them, one heap node
  per thread in four linked lists with a chained hash table as index (`ThreadLists`, `Scheduler`);
- the readers/writers lock and the counting semaphore with its status queue as step systems over any
  number of threads (`RwLock`, `Semaphore`);
- the heap-linked list and the chained hash table (`LinkedLists`, `HashTables`), on which the scheduler is built,
  and the circular buffer (`CircularBuffers`).

## How it is built

Where the kernel updates an object in place the model has a class with those fields, and each method is
proved against a function on values; theorems are about the functions. The `Serve` methods of `FrameManager`,
`VmServe` and `Scheduler` execute any list of requests, failing ones included, and show that the object only
goes through runs of the pure system, so what is proved of all runs holds of the object. Where the code does not
do what it is for, the contract is an if and only if, and a lemma gives a run that reaches the failing case.

A branch that ends in `assert false` is a panic or an error return of the kernel that is proved unreachable.

`PAGE_SIZE` is 4096 and `USER_MEM_START` is 16 MiB. Kernel heap allocation always succeeds.
Threads, physical memory size, boot tables and page contents are parameters.

## Findings

- Fork puts all pages of the child into one frame. If the source's lowest mapped page starts a `new_pages`
  region that is not all of its memory, the child can later give back that only frame while other pages still
  point into it. An operation keeps the system in order exactly when it is not such a fork (`EventKeeps`,
  `DeepCopy`); `UnsafeReached` is a run to such a source, and `SharedPage` continues it until two processes
  translate to the same physical page. In that run every block is the one the allocator has to hand out.
- `yield` tests its target with interrupts on and switches to it later. The switch keeps the pools in step exactly
  when the target is still in the runnable pool or gone (`SwitchToExact`, `SwitchToTarget`). `LateSwitchReachable`
  is a run in which a clock interrupt lets the target start to wait in between; after the switch the target's next
  deschedule takes its node out of the wrong list (`LateSwitchThenDeschedule`, `DescheduleCurrent`).
- The scheduler can starve a thread. A switch turns the runnable pool by one place and runs the new head. If the head
  has just left the pool by waiting, sleeping or ending, the thread behind it is the head already, and the turn passes
  it over. A runnable thread runs within as many switches as threads are ahead of it unless that happens (`GetsTurn`,
  `MissesExactly`); `Starves` is a run, for every n, of n switches in which a thread is runnable throughout and
  never runs.
- New pages are user-writable exactly when their page table is new or was already (`NewPageAccess`). A page between
  two sections is loaded read-only with a read-only table, and if it is the first in its table, the sections behind
  it in that table and all pages added there later are read-only (`GapSpoilsTable`).
- The search for the section of a page looks at the first and the last byte of the page only. A section that lies
  between them is overlooked, and its page is read-only whatever it asks for (`OverlooksExactly`, `LoneSection`).
  An empty section at address 0 decides every page that no section before it decides (`EmptyDecides`). The loader
  maps all pages of the sections exactly when their last byte is not the first byte of a page (`AllMapped`).
- `make_runnable` picks the list to unlink from by the status alone. On the heap lists the scheduler survives the
  call exactly when that list holds the thread (`MakeRunnable`); otherwise the list it was unlinked from links as
  many nodes as before and counts one less (`Move`, `NoListFits`). `UnsafeCallReachable` is a run to a state where
  a thread that names itself is such a case.
- Removing a SLEEPING thread from the table leaves its node in a pool (`RemoveOk`). The only caller, the reaper,
  removes zombies, so no run of the kernel gets there.
- A child whose parent is gone posts its status to init without init's lock (kern/scheduler/thr_helpers.c:127-132),
  so another operation on init's status list may come between what the post reads of the list and what it writes.
  The status books stay balanced exactly when the tail the post has seen is still the tail, and likewise for a
  collection (`StatusStep`). In `LostStatus` two orphans post at the same time: both waits of init complete, one
  status is lost, and the second collection follows a null pointer. Without orphans this cannot happen
  (`ParentsCollect`).
- A thread id is drawn by `next_tid++` before the scheduler lock is taken (kern/scheduler/scheduler.c:526, 553). If
  that increment is interrupted two creators may draw the same id; filing the second thread then fails, and
  kern/scheduler/tcb_pool.c:126 returns with the scheduler locked. The model draws the id in one step.
- `thr_deschedule` clears the reject flag it finds set (kern/scheduler/thr_helpers.c:47), after which the loop of
  `cond_wait` goes back to sleep. A step loses no wakeup exactly when it raises no flag between the sleeper's test
  and its exchange and makes no flagged thread runnable between its exchange and its being parked (`WakeStep`). `LostWakeup` is a run that loses one: the lock is free, a writer is queued,
  and nobody is on the way; the thread that lost its flag sleeps forever (`StrandedForever`). Mutual exclusion and
  the bounds on the semaphore hold regardless.
- A batch gives the codes and the directory of immediate execution exactly when every removal finds its page as it
  was before the batch (`BatchIsImmediate`). Creating and removing an unmapped page in one batch leaves it mapped
  (`CreateRemoveDiffers`); removing a page twice succeeds twice (`DoubleRemoveDiffers`).
- Aborting a batch frees the page tables made for its creations while the directory still points to them
  (`AbortMapping`). In both places where the memory manager aborts there are none.
- The loader clears only a quarter of the memory it maps; the rest reads as its previous owner left it
  (`LoaderClearsQuarter`, `MapSections`).
- `circ_buf_delete_front` steps back through zero correctly exactly when the length divides 2^32
  (`BackwardIndex`, `DeleteFront`); both lengths in use do.
- The comment on `vmm_new_user_page` says it rejects a base outside user space. The code does not; the system
  call handler does (kern/handlers/mem_mgmt_handlers.c:21), and the model takes a base that has passed it.

## Model

| member | source | states |
|---|---|---|
| `BuddyForest.Canonical` | kern/virtual_mem_mgmt/frame_manager.c:133-183 | Two coalesced forests over the same roots with the same allocated blocks are equal: the allocated blocks determine every split and every free block. |
| `BuddyForest.RunsCanonical` | kern/virtual_mem_mgmt/frame_manager.c:277-395 | Any two runs of allocations and frees from initialisation that leave the same blocks allocated end in the same forest, so the order of frees is irrelevant. |
| `BuddyForest.AllFreedIsInit` | kern/virtual_mem_mgmt/frame_manager.c:340-395 | After any run that has freed everything the forest is exactly the one built at initialisation. |
| `BuddyForest.Completeness` | kern/virtual_mem_mgmt/frame_manager.c:197-262 | A free block of order at least j exists if and only if some aligned range of 2^j pages inside a root has no allocated page. |
| `BuddyForest.Tiling` | kern/virtual_mem_mgmt/frame_manager.c:410-451 | Every page of the initial range lies in exactly one free or allocated block and no block reaches outside it. |
| `BuddyForest.BlockInRange` | kern/virtual_mem_mgmt/frame_manager.c:219-258 | Every block of a reachable forest ends inside the initial range. |
| `BuddyForest.LeafByAddress` | kern/virtual_mem_mgmt/frame_manager.c:474-481 | The address alone identifies a free or allocated block, which is why two tables may be keyed by it. |
| `BuddyForest.SplitDownGood` | kern/virtual_mem_mgmt/frame_manager.c:197-262 | The split recursion keeps the forest well formed, allocates nothing, and the only pair of free buddies it leaves is the last one made. |
| `BuddyForest.CarveGood` | kern/virtual_mem_mgmt/frame_manager.c:277-329 | A successful allocation keeps the forest coalesced and adds exactly one allocated block. |
| `BuddyForest.JoinGood` | kern/virtual_mem_mgmt/frame_manager.c:133-183 | The join recursion ends in a coalesced forest and removes exactly the freed block. |
| `BuddyForest.FreeUndoesAlloc` | kern/virtual_mem_mgmt/frame_manager.c:340-395 | Freeing the block just allocated restores the forest. |
| `Blocks.PagesOfBlock` | kern/virtual_mem_mgmt/frame_manager.c:219-258 | A block named by index and order is exactly its run of 2^i pages. |
| `Blocks.FirstLeft` | kern/virtual_mem_mgmt/frame_manager.c:219-258 | The halves made by a split start at the block and in its middle. |
| `FrameIndex.ParentKey` | kern/virtual_mem_mgmt/frame_manager.c:484-490 | The key of a parent, its address or-ed with its order, gives back both. |
| `FrameIndex.KeyUnique` | kern/virtual_mem_mgmt/frame_manager.c:474-490 | Within each of the three tables no two frames have the same key. |
| `FrameIndex.MergedOk` | kern/virtual_mem_mgmt/frame_manager.c:133-183 | Destroying a frame and its free buddy finds both in their tables and leaves tables and bins in agreement with the forest. |
| `FrameIndex.FreedOk` | kern/virtual_mem_mgmt/frame_manager.c:340-395 | Freeing without a merge meets no duplicate key and leaves tables and bins in agreement with the forest. |
| `FrameIndex.SplitIxOk` | kern/virtual_mem_mgmt/frame_manager.c:197-262 | A split finds the frame in `deallocated`, meets no duplicate key for the parent or the halves, and leaves tables and bins in agreement. |
| `FrameIndex.AllocIxOk` | kern/virtual_mem_mgmt/frame_manager.c:307-321 | Handing out a frame finds it free, meets no duplicate key in `allocated`, and leaves tables and bins in agreement. |
| `FrameIndex.RootIxOk` | kern/virtual_mem_mgmt/frame_manager.c:410-451 | Adding a root behind the existing ones meets no duplicate key and extends the tiled range by its pages. |
| `FrameIndex.AddrInRange` | kern/virtual_mem_mgmt/frame_manager.c:465-472 | No frame ends beyond the 32-bit physical address space. |
| `FrameAllocator.OrderUnique` | kern/virtual_mem_mgmt/frame_manager.c:280-305 | The chosen order j satisfies n <= 2^j < 2n and is the only order that fits without a smaller one fitting. |
| `FrameAllocator.FindBin` | kern/virtual_mem_mgmt/frame_manager.c:286-297 | The downward search over the bins stops at that order, for every valid request. |
| `FrameAllocator.FreeBinIffRange` | kern/virtual_mem_mgmt/frame_manager.c:299-305 | A bin at or above j is non-empty exactly when an aligned range of order j is wholly free. |
| `FrameAllocator.UsableFrames` | kern/virtual_mem_mgmt/frame_manager.c:465-472 | The number of frames used is the largest that stays within the machine and within 32-bit addresses. |
| `FrameAllocator.Init` | kern/virtual_mem_mgmt/frame_manager.c:462-505 | Initialisation fails, panics or builds a valid allocator over exactly the usable frames, depending on the machine's frame count. |
| `FrameAllocator.FrameManager.InitUserSpace` | kern/virtual_mem_mgmt/frame_manager.c:410-451 | Fills the bins from the largest down so that the roots tile the whole range and every bin but the largest gets at most one. |
| `FrameAllocator.FrameManager.RequestSplit` | kern/virtual_mem_mgmt/frame_manager.c:197-262 | The recursion terminates; it fails exactly when no larger bin has a frame, changing nothing, and otherwise splits the head of the first such bin down to the order asked for. |
| `FrameAllocator.FrameManager.RequestJoin` | kern/virtual_mem_mgmt/frame_manager.c:133-183 | The recursion terminates, none of its panics is reachable, and it performs the join of the pure forest. |
| `FrameAllocator.FrameManager.AllocPages` | kern/virtual_mem_mgmt/frame_manager.c:277-329 | Returns -1 exactly for sizes out of range, -2 exactly when no aligned wholly free range of the right order exists, and then changes nothing; otherwise adds one allocated block, the leftmost of the first fitting frame. |
| `FrameAllocator.FrameManager.DeallocPages` | kern/virtual_mem_mgmt/frame_manager.c:340-395 | Succeeds exactly on the base address of an allocated block, which it joins back; otherwise changes nothing. |
| `FrameAllocator.FrameManager.Answer` | kern/virtual_mem_mgmt/frame_manager.c:277-395 | One request gets the code the forest calls for; an allocation cuts its block from the left of a best fit and returns the block's address, a free joins, and a failure changes nothing. |
| `FrameAllocator.FrameManager.Serve` | kern/virtual_mem_mgmt/frame_manager.c:277-395 | In any history every request gets the right code and address, in the forest the earlier ones left; and any other run with the same blocks allocated ends in the same forest. |
| `Machine.BitOrFlags` | kern/inc/page_directory.h:94 | Or-ing flags into a page-aligned address adds them. |
| `Paging.AddFlagsParts` | kern/inc/page_directory.h:94-98 | Flags and address come back out of an entry word unchanged, START, END and present bits included. |
| `Paging.IndexBijection` | kern/virtual_mem_mgmt/page_directory.c:234-254 | The two table indices of an address are in range and name exactly its page. |
| `Paging.AddressOfIndices` | kern/virtual_mem_mgmt/page_directory.c:147-149 | Building an address from two indices and taking the indices again gives them back. |
| `Paging.CommitConsecutive` | kern/virtual_mem_mgmt/page_directory.c:342-354 | Committing tasks for consecutive pages writes exactly those pages' entries. |
| `Paging.TablesMadeStep` | kern/virtual_mem_mgmt/page_directory.c:383-392 | Creating one more mapping makes the table it lacks, with the flags asked for, and no other directory entry changes its flags; a table keeps the flags of the first page mapped in it. |
| `Paging.CommitFlags` | kern/virtual_mem_mgmt/page_directory.c:342-354 | A commit changes no directory entry's flags. |
| `Paging.KernelGuarded` | kern/virtual_mem_mgmt/page_directory.c:102-140 | In a directory with the kernel's tables user code reaches no page below user memory; page 0 is unmapped and every other one is mapped to itself. |
| `Batching.BatchIsImmediate` | kern/virtual_mem_mgmt/page_directory.c:316-454 | A sequence of creates and removes gives the same codes and the same directory as a batch and executed at once if and only if every removal finds its page mapped or unmapped as it was before the first operation. |
| `Batching.FreshIsSteady` | kern/virtual_mem_mgmt/page_directory.c:425-454 | In particular any creates, and removes at pages that no earlier operation names. |
| `Batching.CreateRemoveDiffers` | kern/virtual_mem_mgmt/page_directory.c:368-454 | Creating and then removing an unmapped page returns 0 twice and unmaps it at once; in a batch the removal returns -3 and the commit maps the page. |
| `Batching.DoubleRemoveDiffers` | kern/virtual_mem_mgmt/page_directory.c:425-454 | Removing a mapped page twice returns 0 twice in a batch, and 0 then -3 at once. |
| `PageDirectories.PageDirectory.GetMapping` | kern/virtual_mem_mgmt/page_directory.c:234-254 | Returns the entry of the page, or tells a missing table from a missing page. |
| `PageDirectories.PageDirectory.GetPermissions` | kern/virtual_mem_mgmt/page_directory.c:263-288 | Privilege is user exactly when user code can read the page through both levels, and access is read-only exactly when it can read but not write it. |
| `PageDirectories.InitKernel` | kern/virtual_mem_mgmt/page_directory.c:98-123 | The loop maps every kernel page but page 0 to itself, writable, global and for the kernel alone, in both levels. |
| `PageDirectories.PageDirectory.constructor` | kern/virtual_mem_mgmt/page_directory.c:470-500 | A new directory holds exactly the given kernel entries and no user table. |
| `PageDirectories.PageDirectory.CreateMapping` | kern/virtual_mem_mgmt/page_directory.c:368-415 | Performs one create step, immediate or batched; fails with -1 exactly on a misaligned address, and then changes nothing. |
| `PageDirectories.PageDirectory.RemoveMapping` | kern/virtual_mem_mgmt/page_directory.c:425-454 | Performs one remove step, immediate or batched; -1, -2 and -3 tell a misaligned address, a missing table and a missing page apart, and change nothing. |
| `PageDirectories.PageDirectory.CommitMapping` | kern/virtual_mem_mgmt/page_directory.c:342-354 | Applies the pending tasks in order and closes the batch. |
| `PageDirectories.PageDirectory.AbortMapping` | kern/virtual_mem_mgmt/page_directory.c:326-334 | Drops the pending tasks and closes the batch; reports exactly the directory entries whose tables were made for pending tasks, which are freed and still referenced. |
| `PageDirectories.PageDirectory.MapInBatch` | kern/virtual_mem_mgmt/page_directory.c:316-454 | Running operations as one batch on the object has the effect and the codes of running them one by one if and only if every removal is steady. |
| `PageDirectories.PageDirectory.MapPages` | kern/virtual_mem_mgmt/virtual_mem_mgmt.c:204-230 | Maps a range to consecutive physical pages with the flags asked for in both levels, making exactly the tables that are missing, or changes nothing when an address is not aligned. |
| `PageDirectories.PageDirectory.DeallocFrame` | kern/virtual_mem_mgmt/page_directory.c:605-616 | Removes the frame based at an address and its page count, or fails and changes nothing. |
| `PageDirectories.PageDirectory.DeallocAllFrames` | kern/virtual_mem_mgmt/page_directory.c:634-647 | Empties the frame list, reporting every base address in list order. |
| `PageDirectories.PageDirectory.ClearUserTables` | kern/virtual_mem_mgmt/page_directory.c:654-670 | Drops every user table and leaves the kernel's translation alone. |
| `Access.NewPageAccess` | kern/virtual_mem_mgmt/virtual_mem_mgmt.c:204-230 | User code can write a page of a new region if and only if the page's table is new or allowed it before. |
| `Access.OldPageAccess` | kern/virtual_mem_mgmt/virtual_mem_mgmt.c:204-230 | What user code can do with any other page does not change. |
| `Access.LoadedAccess` | kern/virtual_mem_mgmt/virtual_mem_mgmt.c:122-153 | User code can write a loaded page if and only if the page's flags allow it and so do those its table had, or else those asked for with the first page in it. |
| `Access.GapSpoilsTable` | kern/virtual_mem_mgmt/virtual_mem_mgmt.c:130-140 | If a page between sections is the first in its table, a writable section behind it in the table is read-only, and so is a page added there later. |
| `Spaces.Isolation` | kern/virtual_mem_mgmt/virtual_mem_mgmt.c:174-328 | Under the system invariant two directories never translate user pages to the same physical page. |
| `Spaces.KernelMemory` | kern/virtual_mem_mgmt/virtual_mem_mgmt.c:174-328 | Under the system invariant no user page is translated to the kernel's memory. |
| `Spaces.AddSpaceOk` | kern/virtual_mem_mgmt/virtual_mem_mgmt.c:191-232 | Adding pages backed by a new frame keeps ownership, region marks, frame exclusiveness and the page count. |
| `Spaces.DropSpaceOk` | kern/virtual_mem_mgmt/virtual_mem_mgmt.c:258-292 | Removing the region that starts at a frame's base, with that frame, keeps them too, and the region is as long as the frame. |
| `Spaces.SysGrow` | kern/virtual_mem_mgmt/virtual_mem_mgmt.c:191-199 | Charging a newly allocated block to one directory keeps the frame lists in one-to-one correspondence with the allocated blocks. |
| `Spaces.SysShrink` | kern/virtual_mem_mgmt/virtual_mem_mgmt.c:281-292 | Returning a block and dropping it from its list keeps that correspondence. |
| `Fork.ForkTranslation` | kern/virtual_mem_mgmt/page_directory.c:519-561 | The copy maps the same user pages with the same flags to consecutive physical pages in ascending virtual order. |
| `Fork.ForkAccess` | kern/virtual_mem_mgmt/page_directory.c:531-556 | User code can read and write a page of the copy, through both levels, exactly when it can read and write the page of the source; user tables exist in the copy where they do in the source. |
| `Fork.RankInjective` | kern/virtual_mem_mgmt/page_directory.c:519-561 | Two mapped pages of the copy never get the same physical page. |
| `Fork.ForkSpaceOk` | kern/virtual_mem_mgmt/page_directory.c:519-561 | The copied space is in order if and only if the source is fork-safe. |
| `Fork.UnsafeForkLeavesDangling` | kern/virtual_mem_mgmt/virtual_mem_mgmt.c:281-292 | For every source that is not fork-safe, removing the child's lowest region leaves a mapped page in a frame the child no longer owns. |
| `UnsafeFork.UnsafeReached` | kern/virtual_mem_mgmt/virtual_mem_mgmt.c:44-73 | A run of the kernel, each block being the only one the allocator can choose, reaches a directory that is not fork-safe with the whole system in order. |
| `UnsafeFork.RunHolds` | kern/virtual_mem_mgmt/virtual_mem_mgmt.c:44-293 | The run goes on: the directory is forked, the child removes the inherited region, and a new process gets the block given back. |
| `UnsafeFork.SharedPage` | kern/virtual_mem_mgmt/virtual_mem_mgmt.c:44-293 | At the end of that run two directories translate user pages to the same physical page. |
| `Fork.MemCopyStep` | kern/virtual_mem_mgmt/page_directory.c:166-190 | Copying one more page extends the copied prefix and changes no other physical page. |
| `VirtualMemory.OverflowExact` | kern/virtual_mem_mgmt/virtual_mem_mgmt.c:180-182 | The wrapping test rejects exactly when base + n * 4096 > 2^32. |
| `VirtualMemory.NewFlagsMarks` | kern/virtual_mem_mgmt/virtual_mem_mgmt.c:210-219 | The START bit is set on the first page only and the END bit on the last only, and every page has the present, write and user bits. |
| `VirtualMemory.ForkContents` | kern/virtual_mem_mgmt/page_directory.c:166-224 | Every page of the fork reads as the source page did before, and so does the source page after. |
| `VirtualMemory.ForkSysOk` | kern/virtual_mem_mgmt/virtual_mem_mgmt.c:44-73 | After a fork the whole system is in order if and only if the source is fork-safe. |
| `VirtualMemory.SafeByLowest` | kern/virtual_mem_mgmt/virtual_mem_mgmt.c:44-73 | A space in order is fork-safe if and only if a region at its lowest mapped page, if there is one, is all that is mapped. |
| `VirtualMemory.PlainIsSafe` | kern/virtual_mem_mgmt/virtual_mem_mgmt.c:44-73 | In particular a space whose lowest page is not START-flagged is fork-safe. |
| `VirtualMemory.Vmm.NewUserPage` | kern/virtual_mem_mgmt/virtual_mem_mgmt.c:174-233 | Succeeds exactly when size, alignment, range, overlap and free memory allow it; every error leaves translation, frame list, page count and forest unchanged; success adds one region that reads zero, and one block; entries of the new pages and of the tables made for them allow user code to read and write, and no other directory entry changes. |
| `VirtualMemory.Vmm.RemoveUserPage` | kern/virtual_mem_mgmt/virtual_mem_mgmt.c:245-293 | Each code has its exact condition; the START-to-END loop terminates without panic or error; success drops exactly the region, its frame and its block, and every error changes nothing. |
| `VirtualMemory.Vmm.NewThenRemove` | kern/virtual_mem_mgmt/virtual_mem_mgmt.c:174-293 | Removing what was just added always succeeds and restores translation, access, frame list, page count and forest. |
| `VirtualMemory.Vmm.ClearUserSpace` | kern/virtual_mem_mgmt/virtual_mem_mgmt.c:304-328 | Every frame of the directory is returned to the allocator, none of another directory, and no user table remains. |
| `VirtualMemory.Vmm.Destroy` | kern/scheduler/pcb.c:84-91 | Destroying a directory leaks no block. |
| `VirtualMemory.Vmm.MapSections` | kern/virtual_mem_mgmt/virtual_mem_mgmt.c:86-157 | Loading sections into free pages fails exactly when no free range is large enough, changing nothing, and otherwise charges one block to the directory, maps exactly those pages into it with the flags asked for in both levels, and clears the first quarter of its bytes. |
| `VirtualMemory.LoaderClearsQuarter` | kern/virtual_mem_mgmt/virtual_mem_mgmt.c:155 | Of n loaded pages the first n/4 read zero, the next one in its first n mod 4 quarters, and every other byte reads as before the call. |
| `Sections.GetBounds` | kern/virtual_mem_mgmt/mem_section.c:40-60 | Returns the least and the greatest address of the sections that are not empty, and fails exactly when all are. |
| `Sections.FindSection` | kern/virtual_mem_mgmt/mem_section.c:70-88 | Returns the first section that contains the first or the last address of the range, or tells that there is none. |
| `Sections.OverlooksExactly` | kern/virtual_mem_mgmt/mem_section.c:78-84 | A section with bytes in the range is overlooked if and only if it lies strictly between its ends. |
| `Sections.EmptyClaims` | kern/virtual_mem_mgmt/mem_section.c:78-84 | An empty section is found, for any range, if and only if it starts at address 0. |
| `Sections.PageSpan` | kern/virtual_mem_mgmt/virtual_mem_mgmt.c:93-97 | On 32-bit words the loader counts the pages from the first to the last, without the last if only its first byte counts. |
| `Sections.AllMapped` | kern/virtual_mem_mgmt/virtual_mem_mgmt.c:93-97 | Every byte between the bounds lies in a mapped page if and only if the last byte is not the first of its page. |
| `Loader.LoneSection` | kern/virtual_mem_mgmt/virtual_mem_mgmt.c:122-140 | A page that no other section reaches an end of gets the flags of a section with bytes in it, unless the section lies strictly inside the page; then it is read-only. |
| `Loader.EmptyDecides` | kern/virtual_mem_mgmt/mem_section.c:78-84 | An empty section at address 0 decides the flags of every page that no section before it decides. |
| `Loader.LoadSections` | kern/virtual_mem_mgmt/virtual_mem_mgmt.c:86-157 | Fails with -1 exactly without sections and with -2 exactly when memory does not suffice; otherwise every page from the first to the last is mapped into one new frame with the flags of the section that decides it, and so is every table made. |
| `Loader.LoadedSection` | kern/virtual_mem_mgmt/virtual_mem_mgmt.c:122-153 | User code can write a page that one section alone reaches if and only if the section contains an end of the page, asks for it, and the page's table allows it. |
| `VirtualMemory.Vmm.CopyPage` | kern/virtual_mem_mgmt/page_directory.c:166-190 | The temporary remapping copies the page and leaves the source table as it was. |
| `VirtualMemory.Vmm.CopyTables` | kern/virtual_mem_mgmt/page_directory.c:519-561 | Both loops together make the destination the fork of the source in directory entries, flags included, tables and contents, and leave its kernel entries alone. |
| `VirtualMemory.Vmm.DeepCopy` | kern/virtual_mem_mgmt/virtual_mem_mgmt.c:44-73 | Fails exactly when memory does not suffice, changing nothing; otherwise the child is the fork with the same tables, flags and contents, the source is unchanged, and the system stays in order exactly when the source is fork-safe. |
| `VmRuns.EventKeeps` | kern/virtual_mem_mgmt/virtual_mem_mgmt.c:44-328 | A successful operation on any directory keeps the one-to-one correspondence between allocated blocks and frame lists, and every address space in order, if and only if it is not a fork of a source that is not fork-safe. |
| `VmRuns.RunKeeps` | kern/virtual_mem_mgmt/virtual_mem_mgmt.c:44-328 | So does every run of such operations over any number of directories. |
| `VmRuns.EveryRunIsolated` | kern/virtual_mem_mgmt/virtual_mem_mgmt.c:174-328 | In every run from the empty system, two directories never translate user pages to the same physical page. |
| `VmRuns.EveryRunAccounts` | kern/virtual_mem_mgmt/page_directory.c:583-647 | In every run each allocated block is listed by exactly one directory, each listed frame is an allocated block, each mapped user page lies in a frame of its own directory, and the page counts add up. |
| `VmRuns.AllDestroyedIsInit` | kern/scheduler/pcb.c:84-91 | After any run that has destroyed every directory, the allocator's forest is the one built at initialisation. |
| `VmRuns.DoNewPages` | kern/virtual_mem_mgmt/virtual_mem_mgmt.c:174-233 | A call of `new_pages` is one growth event at its page and length exactly when it can succeed, and otherwise no event. |
| `VmRuns.DoRemovePages` | kern/virtual_mem_mgmt/virtual_mem_mgmt.c:245-293 | A call of `remove_pages` is one shrinking event at its page exactly when a region starts there whose first page is the base of a frame of the directory, and otherwise no event. |
| `VmRuns.DoLoad` | kern/virtual_mem_mgmt/virtual_mem_mgmt.c:86-157 | Loading sections into free pages is one growth event exactly when memory suffices, and otherwise no event. |
| `VmRuns.DoClear` | kern/virtual_mem_mgmt/virtual_mem_mgmt.c:304-328 | Clearing a directory is one event that gives back all its blocks and nothing else. |
| `VmRuns.DoDestroy` | kern/scheduler/pcb.c:84-91 | Destroying a directory clears it and then removes it. |
| `VmRuns.DoCreate` | kern/virtual_mem_mgmt/page_directory.c:470-500 | A new directory owns no frame, has the kernel's tables and no user table. |
| `VmRuns.DoCopy` | kern/virtual_mem_mgmt/virtual_mem_mgmt.c:44-73 | Copying a directory is one fork event exactly when memory suffices for its mapped pages, and leaves the system in order exactly when the source is fork-safe. |
| `VmRuns.DoFork` | kern/virtual_mem_mgmt/virtual_mem_mgmt.c:44-73 | Making a directory and copying any source into it is a run of those two events, the second exactly when memory suffices; the system is out of order afterwards exactly when the copy was made of a source that is not fork-safe. |
| `VmServe.ServeOne` | kern/virtual_mem_mgmt/virtual_mem_mgmt.c:86-328 | A call by a process has an effect exactly when it can: free range, alignment and memory for `new_pages` and loading, an owned region for `remove_pages`. |
| `VmServe.ServeFork` | kern/virtual_mem_mgmt/virtual_mem_mgmt.c:44-73 | A fork always makes a directory, and the copy exactly when memory suffices. |
| `VmServe.Serve` | kern/virtual_mem_mgmt/virtual_mem_mgmt.c:44-328 | In any history of calls by any number of processes each call is answered so, in the stage the earlier ones left, up to the first fork made of a source that is not fork-safe, after which the system is out of order. Without one all events together are a run, at the end no two directories share a physical page, user code reaches no kernel page and no kernel memory, and if no directory is left the forest is the initial one. |
| `Pools.OnePool` | kern/scheduler/tcb_pool.c:103-135 | Under the invariant a thread of the table sits in exactly one pool, once, and the pool sizes add up to the table's size. |
| `Pools.DescheduleOk` | kern/scheduler/scheduler.c:316-327 | Descheduling the running thread keeps the scheduler's invariant. |
| `Pools.MakeRunnableOk` | kern/scheduler/tcb_pool.c:481-511 | A safe `make_runnable` keeps the invariant. |
| `Pools.SleepOk` | kern/scheduler/scheduler.c:400-423 | Going to sleep until a later tick at a fitting place keeps the invariant, order and wake times included. |
| `Pools.VanishOk` | kern/scheduler/tcb_pool.c:524-560 | Becoming a zombie keeps the invariant. |
| `Pools.WakeDueOk` | kern/scheduler/tcb_pool.c:339-353 | The wakeup loop terminates and moves exactly the sleepers whose wake time equals the clock, in order; everyone left wakes strictly later. |
| `Pools.SwitchOk` | kern/dispatcher/dispatcher.c:44-80 | A switch rotates the runnable pool once, runs its head or the idle thread, and keeps the invariant. |
| `Pools.RotateTimesSplit` | kern/data_structures/ll.c:205-232 | After k rotations the list starts at its k-th element. |
| `Lists.PlaceFits` | kern/data_structures/ll.c:296-340 | The place found by the sorted insertion lies between a key that is not larger and one that is not smaller. |
| `SchedulerRuns.RemoveOk` | kern/scheduler/tcb_pool.c:576-615 | Removing a thread from the table keeps the pools in step if and only if its status is not SLEEPING. |
| `SchedulerRuns.StepOk` | kern/scheduler/scheduler.c:316-681 | Every entry point and every clock interrupt keeps the invariant. |
| `SchedulerRuns.RunAllReaches` | kern/scheduler/scheduler.c:316-681 | The state computed for a history of calls, those a caller may not make passed over, is reached by a run. |
| `SchedulerRuns.EveryRunPartitions` | kern/scheduler/tcb_pool.c:443-615 | In every run each thread of the table has one node in exactly one of the four pools, other ids have none, and the sizes add up. |
| `SchedulerRuns.SleepsUntilDue` | kern/scheduler/tcb_pool.c:339-353 | A sleeper nobody makes runnable is still asleep, with its wake time, as long as the clock is before that time. |
| `SchedulerRuns.WokenOnTime` | kern/scheduler/tcb_pool.c:339-353 | In every run that reaches its wake time such a sleeper was woken by the tick at which the clock showed exactly that time. |
| `SchedulerRuns.TickWakesOnTime` | kern/handlers/peripheral_handlers.c:27-38 | A clock interrupt moves a sleeper to the runnable pool exactly when its wake time is the new clock value. |
| `SchedulerRuns.SleepForFacts` | kern/scheduler/scheduler.c:400-423 | A thread of the table that sleeps n ticks at clock c is asleep, in no other pool, until c + n. |
| `SchedulerRuns.SleepsExactly` | kern/scheduler/tcb_pool.c:339-353 | In every run after that in which nobody makes it runnable it is asleep while the clock is before c + n, and is woken by the tick that makes the clock c + n. |
| `SchedulerRuns.LifeCycle` | kern/scheduler/tcb_pool.c:443-615 | Each operation takes the thread it is about, and no other, to the pool it is for: waiting, sleeping, zombie, runnable or out of the table. |
| `SchedulerRuns.EveryRunMarks` | kern/scheduler/scheduler.c:355-371 | In every run a runnable thread is marked RUNNABLE, or RUNNING if it is the current one, unless the clock woke it at its wake time and it has not run since. |
| `SchedulerRuns.EveryThreadGetsItsTurn` | kern/scheduler/tcb_pool.c:228-245 | With n runnable threads, n scheduler-chosen switches run each of them exactly once. |
| `Fairness.StaysAhead` | kern/scheduler/tcb_pool.c:103-135 | No operation but a switch lets a runnable thread fall back behind another, whoever is added, made runnable or taken out. |
| `Fairness.SwitchAhead` | kern/scheduler/tcb_pool.c:228-245 | A switch, by the clock or not, brings every runnable thread but the head one place nearer, the next in line runs, and the head goes to the end. |
| `Fairness.MissesExactly` | kern/scheduler/tcb_pool.c:228-245 | A thread goes from waiting for its turn to the end of the queue, without running, if and only if it is the head, not the current thread and not alone. |
| `Fairness.GetsTurn` | kern/scheduler/tcb_pool.c:228-245 | In every run a runnable thread with k others ahead of it runs within k switches, unless it becomes such a head. |
| `Fairness.Starves` | kern/scheduler/thr_helpers.c:46-55 | For every n a run reaches a state and goes on through n switches with a thread runnable throughout that never runs, while two others deschedule themselves and make each other runnable. |
| `SchedulerRuns.SwitchToExact` | kern/dispatcher/dispatcher.c:44-80 | Switching to a thread of the table keeps the invariant if and only if it is in the runnable pool. |
| `SchedulerRuns.LateSwitchThenDeschedule` | kern/scheduler/scheduler.c:316-327 | After a switch to a thread the next deschedule keeps the pools a partition if and only if the thread was in the runnable pool. |
| `SchedulerRuns.LateSwitchReachable` | kern/scheduler/thr_helpers.c:213-235 | A run reaches a state in which a thread inside `yield` is about to switch to a target that waits by now; the switch breaks the invariant and the next deschedule the partition. |
| `SchedulerRuns.UnsafeCallReachable` | kern/scheduler/tcb_pool.c:496-507 | A state is reachable in which the running thread may name a thread for which that condition fails. |
| `ThreadLists.NodeOf` | kern/scheduler/tcb_pool.c:103-135 | A thread is in a list exactly when the list holds the node the table has for it. |
| `ThreadLists.PoolLists.Move` | kern/scheduler/tcb_pool.c:481-511 | Unlinking a node from one list and appending it to another keeps the lists well formed exactly when the first holds the node or is empty; otherwise it still links all its nodes and counts one less. |
| `ThreadLists.PoolLists.NoListFits` | kern/data_structures/ll.c:350-374 | No sequence of nodes fits such a list: following its links visits a different number of nodes than its size says. |
| `Scheduling.NewScheduler` | kern/scheduler/tcb_pool.c:70-88 | Four empty lists and an empty table of 64 buckets hold the initial state. |
| `Scheduling.Scheduler.MoveThread` | kern/scheduler/tcb_pool.c:443-560 | The same with the table: a thread moves from pool to pool, or the lists no longer fit. |
| `Scheduling.Scheduler.AddThread` | kern/scheduler/tcb_pool.c:103-135 | The new thread id is not in the table; its node is filed there and appended to the runnable pool. |
| `Scheduling.Scheduler.DescheduleCurrent` | kern/scheduler/scheduler.c:316-327 | Performs the deschedule step; on any partitioned pools the lists survive exactly when the current thread is in the runnable pool or the call fails. |
| `Scheduling.Scheduler.MakeRunnable` | kern/scheduler/scheduler.c:355-371 | For every thread id: the scheduler is in order afterwards if and only if the list the status names holds the thread or nothing is moved; then it performs the step, and otherwise the sleeping list miscounts its nodes. |
| `Scheduling.Scheduler.SleepCurrent` | kern/scheduler/scheduler.c:400-423 | Panics exactly when the wake time would exceed the largest int, and otherwise performs the sleep step: a thread of the table is asleep afterwards until the clock value at the call plus the ticks asked for. |
| `Scheduling.Scheduler.MakeCurrentZombie` | kern/scheduler/scheduler.c:461-470 | Performs the vanish step and leaves no current thread. |
| `Scheduling.Scheduler.WakeSleepers` | kern/scheduler/tcb_pool.c:339-353 | The loop over the head of the sleeping pool performs the wakeup of the specification. |
| `Scheduling.Scheduler.SwitchAway` | kern/dispatcher/dispatcher.c:44-80 | Performs the switch; afterwards a thread is executing. |
| `Scheduling.Scheduler.TimerTick` | kern/handlers/peripheral_handlers.c:27-38 | Performs the tick: count, wake, switch. |
| `Scheduling.Scheduler.CheckRunnable` | kern/scheduler/thr_helpers.c:213-226 | The first half of `yield` tells an absent, a runnable and another target apart, and the caller remembers the target exactly when it is runnable. |
| `Scheduling.Scheduler.SwitchToTarget` | kern/scheduler/thr_helpers.c:228-235 | The second half, any time later, switches to the target, or to the idle thread if the target is gone; the scheduler is in order afterwards if and only if the target is gone or still in the runnable pool. |
| `Scheduling.Scheduler.ReapOne` | kern/scheduler/tcb_pool.c:384-408 | The first zombie's node leaves the table and its pool. |
| `Scheduling.Scheduler.Permitted` | kern/scheduler/scheduler.c:316-681 | Tells from the heap structures exactly whether a step is one the theorems about runs cover. |
| `Scheduling.Scheduler.Serve` | kern/scheduler/scheduler.c:316-681 | After any history of calls and interrupts the lists and the table hold exactly the state the pure system reaches by that history. |
| `RwLock.InvStep` | user/libthread/rwlock.c:48-125 | Every atomic step of every thread, whatever the timing of signals, keeps mutex ownership, reader count, queue and waiter invariants. |
| `RwLock.Safety` | user/libthread/rwlock.c:48-125 | In every interleaving a writer inside excludes all others, and with the mutex free and no writer only writers are queued. |
| `RwLock.NoLostWakeup` | user/libthread/cond.c:63-131 | In every interleaving whose signals are timely, waiters on a free lock have a wakeup pending, and every sleeper is queued or has a flag it will see. |
| `RwLock.NoPanic` | user/libthread/rwlock.c:53-93 | The panics of lock, unlock and downgrade are unreachable, and unlock takes the branch of the kind it holds. |
| `RwLock.CallsEnd` | user/libthread/rwlock.c:48-125 | In every interleaving a call to lock ends with the thread inside with the kind it asked for, a call to unlock outside, and a call to downgrade inside as a reader. |
| `RwLock.DowngradeKeepsLock` | user/libthread/rwlock.c:116-125 | In every interleaving, from a call to downgrade until its next unlock, the thread owns the lock and nobody else owns it for writing. |
| `RwLock.NoDeadlock` | user/libthread/rwlock.c:48-125 | In every interleaving whose signals are timely, when nobody can go on both mutexes are free and, if a thread is parked, another one is inside the lock. |
| `RwLock.MutexStep` | user/libthread/mutex.c:48-65 | The exchange-based mutexes of the lock and of its condition variable never have two holders. |
| `RwLock.QueueStep` | user/libthread/cond.c:63-131 | The condition variable's queue holds each waiter once, and a raised flag belongs to a sleeper that has left it. |
| `RwLock.WakeStep` | user/libthread/cond.c:86-131 | A step keeps the wakeup invariant if and only if it raises no flag between a sleeper's test and its exchange and makes no flagged thread runnable between its exchange and its being parked. |
| `RwLock.ExchangeLoses` | kern/scheduler/thr_helpers.c:47 | The exchange throws away a flag raised since the test, and the thread is then neither queued nor flagged. |
| `RwLock.StrandedForever` | user/libthread/cond.c:86-88 | Such a thread never gets into the lock, whatever any thread does. |
| `RwLock.LostWakeup` | user/libthread/cond.c:63-131 | A run reaches a free lock with a queued writer and no wakeup pending. |
| `Semaphore.Safety` | kern/locks/sem.c:50-101 | In every interleaving, flags lost to the exchange included, completed waits never exceed the initial count plus the signals, with the mutex free the queue length is max(0, -count), and a signaller that must wake somebody finds somebody. |
| `Semaphore.BooksStep` | kern/locks/sem.c:50-101 | Every step balances count, queue, grants, passes and losses. |
| `Semaphore.StatusStep` | kern/scheduler/pcb.c:184-242 | A step keeps statuses posted, signals, passes, statuses taken and the list in balance if and only if what the thread has seen of the list is still so. |
| `Semaphore.LinkedOk` | kern/data_structures/ll.c:243-259 | Linking a status leaves the list in order if and only if the tail is still the one that was seen. |
| `Semaphore.ShortenedOk` | kern/data_structures/ll.c:127-150 | Taking the first status leaves the list in order if and only if it is the last one exactly when it was seen to be. |
| `Semaphore.OthersKeepTidy` | kern/scheduler/pcb.c:184-242 | What a thread has seen of the list stays so unless another thread completes an operation on it. |
| `Semaphore.EveryWaitCollects` | kern/scheduler/pcb.c:218-242 | In every run whose operations on the list are not overtaken in that way, a thread whose wait has completed finds a status; neither the empty-queue branch nor a null pointer is met. |
| `Semaphore.CollectedInOrder` | kern/scheduler/pcb.c:184-242 | In every such run the reports collected, followed by those in the list, are exactly the reports posted, in that order; each is the status and thread its poster was told to report, and everyone told has posted once or is on its way. |
| `Semaphore.ParentsCollect` | kern/scheduler/thr_helpers.c:134-147 | So in every run in which no orphan posts. |
| `Semaphore.ParentsCollectInOrder` | kern/scheduler/thr_helpers.c:134-147 | So in every run in which no orphan posts: the parent collects what its children exited with, in the order in which they posted it. |
| `Semaphore.LostStatus` | kern/scheduler/thr_helpers.c:127-132 | A run in which two orphans post at the same time: two waits complete, one status is taken, and the second collection follows a null pointer. |
| `LinkedLists.LinkedList.LinkLast` | kern/data_structures/ll.c:243-259 | Appends a node to any list; a well-formed list stays so exactly when the node has no stale link at the end it keeps. |
| `LinkedLists.LinkedList.LinkFirst` | kern/data_structures/ll.c:269-284 | Prepends a node, with the same exact condition. |
| `LinkedLists.LinkedList.LinkSorted` | kern/data_structures/ll.c:296-340 | Inserts a node at the place of the specification, with the same exact condition; an ordered list stays ordered. |
| `LinkedLists.LinkedList.Rotate` | kern/data_structures/ll.c:205-232 | Moves the head to the end, or reports an empty list. |
| `LinkedLists.LinkedList.UnlinkNode` | kern/data_structures/ll.c:350-374 | Takes a node of the list out and clears its links; given a node of another list, the list keeps its nodes but its size is one short, so it is valid afterwards exactly when the node was its own or it was empty. |
| `LinkedLists.LinkedList.FindNode` | kern/data_structures/ll.c:410-425 | Finds the first node with the key, or none has it. |
| `LinkedLists.LinkedList.Remove` | kern/data_structures/ll.c:439-459 | Takes out the first node with the key and no other. |
| `LinkedLists.SplicedOut` | kern/data_structures/ll.c:365-371 | With the neighbours of a node linked to each other, the list without it is linked. |
| `LinkedLists.SplicedIn` | kern/data_structures/ll.c:330-335 | With a node linked between two neighbours, the longer list is linked. |
| `LinkedLists.SameChain` | kern/data_structures/ll.c:205-232 | The links determine the list. |
| `HashTables.Slot` | kern/data_structures/ht.c:66 | A hash, negative ones included, reduced modulo the unsigned size is a bucket. |
| `HashTables.TablePut` | kern/data_structures/ht.c:125-144 | Appending an entry with a new key to its bucket represents the extended map, one larger. |
| `HashTables.TableDrop` | kern/data_structures/ht.c:88-111 | Taking an entry out of its bucket represents the map without its key, one smaller. |
| `HashTables.TableFind` | kern/data_structures/ht.c:62-76 | A key is in the map exactly when its own bucket holds it. |
| `HashTables.HashTable.Get` | kern/data_structures/ht.c:62-76 | Returns the map's value, or -2 exactly when the key is absent. |
| `HashTables.HashTable.PutEntry` | kern/data_structures/ht.c:157-170 | Extends the map, or returns -4 and changes nothing exactly when the key is taken; the table stays well formed exactly when the node has no stale link where it is linked. |
| `HashTables.HashTable.Put` | kern/data_structures/ht.c:125-144 | The same with a newly allocated node. |
| `HashTables.HashTable.Remove` | kern/data_structures/ht.c:88-111 | Removes the key and reports the node that held it, or returns -2 exactly when it is absent. |
| `CircularBuffers.BackwardIndex` | kern/data_structures/circ_buffer.c:86 | Stepping back on 32-bit words gives the previous slot if and only if the index is not zero or the length divides 2^32. |
| `CircularBuffers.CircBuf.Write` | kern/data_structures/circ_buffer.c:43-60 | Appends a value, or fails and changes nothing when len - 1 values are held. |
| `CircularBuffers.CircBuf.Read` | kern/data_structures/circ_buffer.c:67-77 | Takes the oldest value. |
| `CircularBuffers.CircBuf.DeleteFront` | kern/data_structures/circ_buffer.c:83-89 | Takes back the newest value; the buffer stays valid exactly when the write index was not zero or the length divides 2^32. |
| `CircularBuffers.CircBuf.WriteThenDelete` | kern/data_structures/circ_buffer.c:43-89 | For every length dividing 2^32 a delete after a write restores contents and indices. |
| `CircularBuffers.LengthsInUse` | kern/kernel.c:51 | 1024 and 32 divide 2^32, and 3 does not. |

## Left out

- VirtualMemory.Vmm.MapSections: the pages must be free, which the loader does not check.
- VmRuns.DoLoad: the same, and all pages are asked for as user-writable.
- Loader.LoadSections: the same, the sections must lie in user space, and not all of them may be empty: then the code ignores that it has no bounds.
- PageDirectories.PageDirectory.GetPermissions: its two callers in the same file read both results even when it fails and sets neither.
- VirtualMemory.Vmm.DeepCopy: the destination is another, empty directory, as process creation provides it.
- VirtualMemory.Vmm.NewUserPage: takes a base in user space, which the system call handler checks; a lower base that is not mapped would be accepted by the code.
- VirtualMemory.Vmm.NewThenRemove: the same.
- VmRuns.DoNewPages: the same.
- VmServe.Serve: stops after a fork made of a source that is not fork-safe; `SharedPage` is what may follow.
- FrameAllocator.Init: takes between 1 and 31 bins, the range in which `1 << i` is a positive int; the kernel asks for 15.
- SchedulerRuns.EveryRunPartitions: covers the runs in which every `make_runnable` is safe and every switch of a `yield` finds its target gone or still runnable; `SwitchToTarget` and `MakeRunnable` are exact about the others.
- Scheduling.Scheduler.TimerTick: the clock stops before the largest int; signed overflow is undefined in C.
- Scheduling.Scheduler.ReapOne: frees nothing and does not follow the zombie semaphore or the process table.
- Scheduling.Scheduler.AddThread: draws the thread id in the same step, though the code does so before it takes the scheduler lock.
- Scheduling.Scheduler.CheckRunnable: looks the target up in one step, though the code walks the table without the scheduler lock.
- Semaphore.StatusStep: what an operation writes to the list is one step, the size field included.
- Bins and tables inside the frame allocator are sequences and maps; that heap lists and chained tables behave as such is proved in `LinkedLists` and `HashTables`, and used in full by the scheduler only.
- The allocator's mutex and all concurrent access to one page directory: calls are sequential.
- Heap exhaustion and the rollback paths only it reaches.
- TLB flushes, control registers, register save areas and context restore.
- Liveness of the deschedule and reject handshake and of the semaphore, and fairness of the locks.
- Loading programs, stacks, the console, the keyboard, exceptions and the thread library's create and join: they would add only easy members or depend on libraries that are not part of this model.
- Destroying locks, lists, tables and buffers.
- Removing the first or last element of a list and peeking: easy members.
