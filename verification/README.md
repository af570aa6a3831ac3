# RogOS in Dafny

RogOS is a small 32-bit kernel written in C. This project models the parts of it whose correctness is not visible in
any one function, and proves what they keep over every input, every run and every interleaving:

- **Memory** (`Bitmap`, `Paging`, `PageSupply`, `PageAllocator`, `Heap`, `HeapSupply`, `Allocator`, `Fork`). The page
  allocator keeps a virtual-page bitmap, page tables and two frame bitmaps in agreement; a size-class allocator of
  arenas sits on top of it; `fork` copies an address space; each succeeds exactly when what it needs is there.
- **Threads** (`List`, `Scheduler`, `Locks`, `IoQueue`, `IdeHandshake`). The scheduler is a class with a
  specification on values; semaphores and locks, the ring queue and the disk handshake are step systems with preemption
  between any two statements at which interrupts are on. Code between `intr_disable` and `intr_set_status` is one step.
- **Disk and files** (`Disk`, `Ide`, `Layout`, `InodeTable`, `Blocks`, `Files`, `FileRuns`, `FileSystem`). Files refine
  byte sequences that only grow, over every run of creations, writes and releases of any number of files, with
  directories coming, growing, shrinking and going on the same bitmaps in between.
- **Directories and paths** (`Directory`, `DirSector`, `DirDisk`, `DirectoryOps`, `Paths`, `Tree`, `TreeEdits`,
  `TreeRuns`, `TreeEffects`). A directory on the disk refines the sequence of its slots, path strings refine lists of
  components, and the system calls that create and remove files and directories, from the path to the slots and the
  inode bitmap, change where their own path leads and keep the tree well formed, except in one case, so that the path of
  the current directory leads back to it.

Code that works by changing things is a class or a method with loops, proved against a function or relation on values;
the lemmas are about those. A run is a sequence of steps that the code can take from any state; that its states are sound
is proved from the first one. The list of `List` is proved to be the sequence of its elements, and the other modules hold
the kernel's lists as such sequences. `Outcome` is the result of an operation that may fail: `Null` is a -1 or NULL that the
caller sees, `Halt` a failed ASSERT or a PANIC, which stops the kernel.

## Where the code does not do what its documentation says

The model follows the code; the members named here say exactly when it fails.

- `bitmap_scan` for more than one bit also looks at the bit past the end, and stops the kernel on a full bitmap
  instead of returning -1 (`Bitmaps.RunOutOfRange`, `Bitmaps.Bitmap.Scan`).
- A consumer registered with the ring queue does not imply an empty queue, nor a producer a full one: a thread that had
  to wait for the lock does not look again (`IoQueues.ProducerRegisteredNotFull`,
  `IoQueues.ConsumerRegisteredNotEmpty`; exactly when, `IoQueues.RegisteredForItsReason`). One producer and one consumer
  can sleep for ever (`IoQueues.DeadlockReachable`): `IoQueues.DeadlockExactly` says which step of which state leads
  there, `IoQueues.DeadlockNeedsContention` what the state is, and the keyboard driver's own test avoids it
  (`IoQueues.GuardedProducerNeverWaits`).
- Below 2 MB of memory the size of the free memory wraps around (`Paging.PoolsInMemory`).
- `inode_sync` writes the slot of the number's low byte. A file can be opened again from the disk, and released, exactly
  when its number is below 256 and no other number with the same low byte was written after it
  (`FileRuns.ReopenedContent`, for directories `FileRuns.ReopenedDir`, `FileRuns.LastOwn`; the slots,
  `InodeTables.SyncOfLargeNumber`, `FileRuns.LargeNumberNotReopened`).
- A write that reaches exactly 71680 bytes passes the size test and then fails an assertion, and the last 512 bytes of
  the largest file cannot be read (`FileSystems.FileSystem.FileWrite`, `FileSystems.FileSystem.FileRead`).
- A partition of fewer than 620 sectors leaves the root directory's block free (`Layouts.SmallPartition`).
- An entry that opens a new directory block is written twice, and deleting it fails an assertion
  (`Directories.InsertThenDelete`; a run that gets there, `Directories.FailureReachable`).
- `sys_getcwd` accepts a path exactly as long as the buffer, and writes the terminating zero behind it
  (`Trees.GetCwd`).
- `sys_rmdir` of an empty directory by a path that ends in "." releases the directory but leaves its name in the parent,
  and the next directory gets its number (`TreeRuns.DropReachable`). A run keeps the tree well formed exactly when no step
  of it does that (`TreeRuns.RunKeeps`, `TreeRuns.RmdirFindsEntry`).
- A search stops at the first regular file, whatever follows in the path, so that `sys_unlink` of "/f/x" removes the
  file "/f" (`Trees.SearchStopsAtFile`).
- `path_depth_cnt` is one less than the depth unless the path ends in a slash (`Paths.PathDepth`).

## Model

| member | source | states |
|---|---|---|
| `Bitmaps.FirstRun` | src/lib/kernel/bitmap.c:22-60 | first fit: the least start of `cnt` clear bits below a limit, -1 exactly when there is none |
| `Bitmaps.FirstRunUnique` | src/lib/kernel/bitmap.c:22-60 | those two properties determine the result |
| `Bitmaps.MarkUndo` | src/lib/kernel/bitmap.c:63-72 | giving a taken run back restores the bitmap |
| `Bitmaps.MaskSetsOneBit` | src/lib/kernel/bitmap.c:63-72 | or-ing a mask sets one bit and no other; and-ing the complement clears it and no other |
| `Bitmaps.LowestClear` | src/lib/kernel/bitmap.c:29-32 | the inner loop finds the lowest clear bit of a byte |
| `Bitmaps.Bitmap.Test` | src/lib/kernel/bitmap.c:15-19 | reads the bit with that index |
| `Bitmaps.Bitmap.Set` | src/lib/kernel/bitmap.c:63-72 | changes that bit and no other |
| `Bitmaps.Bitmap.FirstFree` | src/lib/kernel/bitmap.c:22-38 | the least clear bit; stops the kernel exactly when every bit is set |
| `Bitmaps.Bitmap.CountFrom` | src/lib/kernel/bitmap.c:39-60 | the counting loop finds the first run among the bits it examines, one past the end included |
| `Bitmaps.Bitmap.Scan` | src/lib/kernel/bitmap.c:22-60 | `bitmap_scan` is exact first fit among the bits it examines |
| `Bitmaps.RunInRange` | src/lib/kernel/bitmap.c:39-60 | with the bit past the end set, a run found lies inside the bitmap |
| `Bitmaps.RunOutOfRange` | src/lib/kernel/bitmap.c:39-60 | it reaches outside exactly when nothing fits inside and the bits up to and including the one past the end are clear |
| `Lists.List.constructor` | src/lib/kernel/list.c:5-10 | an empty list between its sentinels |
| `Lists.List.InsertBefore` | src/lib/kernel/list.c:13-22 | the sequence with the element inserted at that position, all links in order |
| `Lists.List.Push` | src/lib/kernel/list.c:25-27 | the element in front |
| `Lists.List.Append` | src/lib/kernel/list.c:30-32 | the element at the end |
| `Lists.List.Remove` | src/lib/kernel/list.c:35-42 | the sequence without the element, which keeps its own pointers |
| `Lists.List.Pop` | src/lib/kernel/list.c:45-49 | returns and removes the first element; faults exactly on an empty list |
| `Lists.List.Find` | src/lib/kernel/list.c:52-61 | whether the element is in the sequence |
| `Lists.List.Len` | src/lib/kernel/list.c:83-91 | the length of the sequence |
| `Lists.List.Empty` | src/lib/kernel/list.c:94-96 | whether the sequence is empty |
| `Scheduling.Scheduler.ThreadUnblock` | src/thread/thread.c:200-212 | the thread is READY and first in the ready list |
| `Scheduling.Scheduler.Schedule` | src/thread/thread.c:141-169 | computes `Dispatch`; none of its assertions fails in a consistent state |
| `Scheduling.Scheduler.ThreadBlock` | src/thread/thread.c:189-197 | the invariant is kept and the thread sleeps |
| `Scheduling.Scheduler.ThreadYield` | src/thread/thread.c:215-223 | the invariant is kept and the thread goes to the end of the list |
| `Scheduling.Scheduler.ThreadStart` | src/thread/thread.c:107-122 | the new thread is READY at the end of the list |
| `Scheduling.Scheduler.TimerInterrupt` | src/device/timer.c:29-41 | a tick of the slice is used, or the slice is over and another thread runs |
| `Scheduling.StepKeepsInv` | src/thread/thread.c:141-223 | every event keeps: one RUNNING thread, READY threads are exactly the duplicate-free ready list, idle can be woken when the list is empty, ticks at most priority |
| `Scheduling.AttemptSucceeds` | src/thread/thread.c:141-223 | with the invariant, no ASSERT and no PANIC of `schedule`, `thread_block`, `thread_unblock`, `thread_yield` or `thread_start` fires |
| `Scheduling.InitHolds` | src/thread/thread.c:173-186 | the invariant holds after `thread_init` |
| `Scheduling.EventStatus` | src/thread/thread.c:189-212 | an event changes whether a thread sleeps only for the thread it is about |
| `Scheduling.RunKeepsInv` | src/thread/thread.c:141-223 | from the first state on the invariant holds in every state of every run, and no event that can come in any of them trips an ASSERT or the PANIC |
| `Scheduling.PositionAfter` | src/thread/thread.c:141-169 | `schedule` moves a waiting thread one place up, a wake-up one place down |
| `Scheduling.BoundedWaiting` | src/thread/thread.c:141-212 | a READY thread at position k has run after k+1+m calls of `schedule`, m being the wake-ups meanwhile |
| `Scheduling.SliceStep` | src/device/timer.c:29-41 | what one event does to the running thread's slice |
| `Scheduling.SliceBound` | src/device/timer.c:29-41 | between two calls of `schedule` there are at most priority+1 timer interrupts |
| `Scheduling.RunsWithinInterrupts` | src/device/timer.c:29-41 | a READY thread at position k runs within (k+1+m)(p+1) timer interrupts |
| `Scheduling.SliceAfter` | src/device/timer.c:29-41 | an event changes no slice but the running thread's: an interrupt takes one tick and counts one elapsed tick, and the one after the last tick grants as many as the priority; a new thread has as many as its priority |
| `Scheduling.SliceKept` | src/thread/thread.c:141-223 | while a thread does not run its slice stays what it is |
| `Scheduling.FullSlice` | src/thread/thread.c:144-151 | over every run, a thread that the timer preempted, or that is new, has a full slice until and when it runs |
| `Scheduling.SliceUsed` | src/device/timer.c:29-41 | a thread that runs with n ticks left, and neither sleeps nor yields, stays on for n interrupts, each taking one tick |
| `Scheduling.SliceEnds` | src/device/timer.c:36-38 | the next interrupt puts it at the end of the ready list with a full slice and runs the first of the others, if there is one |
| `Locks.NoAssertFails` | src/thread/sync.c:21-78 | no assertion of sync.c, or of the scheduler when it blocks or wakes a thread, fails in a state with the invariant |
| `Locks.StepKeeps` | src/thread/sync.c:21-78 | every statement of every thread, every timer interrupt and every other scheduler event keeps the invariant |
| `Locks.ExecutionKeeps` | src/thread/sync.c:8-78 | the invariant holds in every state of every interleaving |
| `Locks.MutualExclusion` | src/thread/sync.c:54-78 | the semaphore value plus the threads inside is 1, always |
| `Locks.NeverHalts` | src/thread/sync.c:21-78 | whatever can come next in a reachable state has a successor: no ASSERT or PANIC of the lock code or the scheduler stops an execution |
| `Locks.NoLostWakeup` | src/thread/sync.c:21-52 | value 1 with threads queued implies a woken thread about to try again |
| `Locks.ReleaseMatchesDepth` | src/thread/sync.c:54-78 | the repeat counter is the nesting depth, and only the release matching the outermost acquire lets others in |
| `Locks.OneListPerThread` | src/thread/sync.c:21-52 | a thread is in at most one of the ready list and the waiters lists, once |
| `Locks.AcquireReturns` | src/thread/sync.c:54-65 | over every interleaving, when a call of `lock_acquire` returns its thread has one acquire more, is the holder, and the semaphore is taken |
| `Locks.ReleaseReturns` | src/thread/sync.c:67-78 | when a call of `lock_release` returns its thread has one acquire less; after the outermost one the lock is open and has no holder, before that the thread still has it |
| `Locks.OutsideKeeps` | src/thread/sync.c:54-78 | between its calls a thread keeps what it has |
| `Locks.AcquireBound` | src/thread/sync.c:54-65 | a call of `lock_acquire` returns within four statements of its thread, not counting those that find the semaphore taken |
| `Locks.ReleaseBound` | src/thread/sync.c:67-78 | a call of `lock_release` returns within four statements of its thread |
| `Locks.DownQueues` | src/thread/sync.c:21-35 | `sema_down` takes an open semaphore; at a taken one the thread goes to the end of the queue and sleeps |
| `Locks.UpWakesFirst` | src/thread/sync.c:38-52 | `sema_up` opens the semaphore and wakes the thread that has waited longest, which is first in the ready list |
| `Locks.AcquireAlone` | src/thread/sync.c:54-65 | the running thread can always take a lock that is open or its own, by itself |
| `Locks.ReleaseAlone` | src/thread/sync.c:67-78 | and give it back |
| `IoQueues.StepKeeps` | src/device/ioqueue.c:14-77 | every step of producer and consumer keeps the invariant |
| `IoQueues.StepAsserts` | src/device/ioqueue.c:31-77 | no assertion fails |
| `IoQueues.FirstInFirstOut` | src/device/ioqueue.c:14-77 | from an empty queue, over every interleaving: bytes read are a prefix of bytes written, at most 63 are in transit, and no assertion fails |
| `IoQueues.BytesArrive` | src/device/ioqueue.c:45-77 | the bytes written are those of the calls, in order, but for that of a call still waiting; every returned call of the consumer has read one |
| `IoQueues.RegisteredForItsReason` | src/device/ioqueue.c:31-77 | in every reachable state a registered thread waits for what it needs exactly when it got the lock at once |
| `IoQueues.RegistersWhen` | src/device/ioqueue.c:31-77 | at the moment it registers, a thread finds the queue full or empty exactly when it did not have to queue for the lock |
| `IoQueues.CallRegistersIffLockFree` | src/device/ioqueue.c:45-77 | the condition seen by the caller in every reachable state: a call that must wait registers at once iff the lock is free |
| `IoQueues.DeadlockNeedsContention` | src/device/ioqueue.c:31-77 | in every run both sleep exactly when one is queued for the lock with which the other sleeps, so never without contention |
| `IoQueues.DeadlockExactly` | src/device/ioqueue.c:31-77 | the next step of any reachable state ends with both asleep iff the other thread sleeps and the step is a call on a full (or empty) queue or the going on of a thread that had queued for the lock |
| `IoQueues.FillAndQueue` | src/device/ioqueue.c:45-77 | an interleaving that fills the queue while the woken consumer holds the lock |
| `IoQueues.DrainAndPark` | src/device/ioqueue.c:45-77 | from there an interleaving after which both sleep |
| `IoQueues.DeadlockReachable` | src/device/ioqueue.c:31-77 | a reachable state in which no step is possible |
| `IoQueues.ProducerRegisteredNotFull` | src/device/ioqueue.c:64-70 | a run that ends with a producer registered on a queue that is not full |
| `IoQueues.DrainAndQueue` | src/device/ioqueue.c:45-77 | an interleaving that drains the queue while the woken producer holds the lock |
| `IoQueues.ConsumerRegisteredNotEmpty` | src/device/ioqueue.c:45-51 | a run that ends with a consumer registered on a queue that is not empty |
| `IoQueues.GuardedProducerNeverWaits` | src/device/keyboard.c:190-193 | with the driver's test for a full queue the producer never waits, and a sleeping consumer is woken by the next key |
| `Paging.PallocTakes` | src/kernel/memory.c:92-104 | a frame of the right pool that was free, and no other bit changes |
| `Paging.PfreeReleases` | src/kernel/memory.c:329-341 | the frame goes back to the pool it came from, and no other bit changes |
| `Paging.MapPageKeeps` | src/kernel/memory.c:107-142 | mapping a page, with a new page table where needed, keeps frames and tables in agreement |
| `Paging.MallocKeeps` | src/kernel/memory.c:46-173 | `malloc_page` keeps virtual bits, page tables and frame bitmaps in agreement in every address space |
| `Paging.UnmapRunKeeps` | src/kernel/memory.c:343-409 | unmapping present pages fails no assertion and releases exactly their frames |
| `Paging.MfreeKeeps` | src/kernel/memory.c:343-409 | `mfree_page` of present pages succeeds and keeps the agreement |
| `Paging.FreeUndoesAllocate` | src/kernel/memory.c:145-173 | `mfree_page` after `malloc_page` restores the bitmap, the page table and the user pool, and for the kernel everything |
| `Paging.OwnedPage` | src/kernel/memory.c:329-409 | a present page has one allocated frame of its own, in the right pool |
| `Paging.InitAgrees` | src/kernel/memory.c:231-303 | the pools start empty and disjoint for every memory size |
| `Paging.PoolsInMemory` | src/kernel/memory.c:231-303 | all frames are inside memory exactly from 2 MB on |
| `Paging.GetAPageKeeps` | src/kernel/memory.c:195-223 | mapping a page at a chosen address keeps the agreement |
| `Paging.DoKeeps` | src/kernel/memory.c:145-409 | every operation, `fork` included, keeps the agreement |
| `Paging.TopPageAbsent` | src/kernel/memory.c:118-120 | no process has the page at the start of the kernel's half, nor its bit: `page_table_add` stops there |
| `Paging.ForkKeeps` | src/userprog/fork.c:45-87 | after `fork` all structures agree in every address space, and the child has exactly the parent's pages, in frames that were free |
| `Paging.RunAgrees` | src/kernel/memory.c:46-409 | in every reachable state, forks included: virtual bit set iff page present; every present page has an allocated frame that nothing else uses; every allocated frame is in use |
| `PageSupply.PallocLowest` | src/kernel/memory.c:92-104 | the free frame with the lowest address |
| `PageSupply.MapRunExact` | src/kernel/memory.c:107-173 | pages can be mapped exactly when they are absent, below the kernel's half for a process, and there is a frame for each of them and for each page table they need |
| `PageSupply.MallocPageExact` | src/kernel/memory.c:46-173 | `malloc_page` succeeds exactly when the first run of free pages can be mapped so; NULL exactly when there is no run; otherwise it stops |
| `PageSupply.RunAbsent` | src/kernel/memory.c:46-173 | in a sound state a run of free pages is absent, and a process can have it exactly when it ends inside its half |
| `PageSupply.GetAPageExact` | src/kernel/memory.c:195-223 | `get_a_page` succeeds exactly for an absent page with frames for it |
| `PageSupply.ForkExact` | src/userprog/fork.c:45-87 | `fork` succeeds exactly when there is a frame for every page of the parent and for every page table of the child |
| `PageAllocation.PageAllocator.Palloc` | src/kernel/memory.c:92-104 | a frame of the pool that was free becomes taken and no other; stops exactly on a full pool |
| `PageAllocation.PageAllocator.PageTableAdd` | src/kernel/memory.c:107-142 | that page leads to the frame and no other page anywhere changes; succeeds exactly when the page is absent, below the kernel's half, and a page table exists or can be made |
| `PageAllocation.PageAllocator.VaddrGet` | src/kernel/memory.c:46-72 | the lowest run of clear pages is marked and nothing else changes; NULL only when no run exists |
| `PageAllocation.PageAllocator.MallocPage` | src/kernel/memory.c:145-173 | the loop computes `MallocPage` |
| `PageAllocation.PageAllocator.Pfree` | src/kernel/memory.c:329-341 | exactly that frame becomes free again, in the pool it came from |
| `PageAllocation.PageAllocator.UnmapPages` | src/kernel/memory.c:369-409 | the unmapping loop computes `UnmapRun`, its assertions included |
| `PageAllocation.PageAllocator.MfreePage` | src/kernel/memory.c:369-409 | computes `MfreePage` |
| `Heaps.BootHeap` | src/kernel/memory.c:306-316 | the heap's invariant holds at boot for every memory size |
| `Heaps.ProcessHeap` | src/userprog/process.c:88-95 | and for a process created in any sound state of the memory |
| `Heaps.BlockGeometry` | src/kernel/memory.c:306-326 | blocks lie behind the header and inside their page, and `block2arena` finds it |
| `Heaps.MallocKeepsHeap` | src/kernel/memory.c:413-500 | `sys_malloc` returns a block that was not live and is large enough, and keeps the invariant |
| `Heaps.FreeKeepsHeap` | src/kernel/memory.c:503-542 | `sys_free` of a live block fails no assertion and keeps the invariant |
| `HeapSupply.MallocExact` | src/kernel/memory.c:413-500 | what `sys_malloc` answers: NULL for a size out of range; the first block of the smallest class that holds the request; without one, the first block of a new arena exactly when a page is to be had; for a large request the pages that hold it, exactly when they are |
| `Heaps.LiveInsideArena` | src/kernel/memory.c:319-326 | a live block is behind its arena's header and inside its mapped pages |
| `Heaps.LiveDisjoint` | src/kernel/memory.c:413-542 | live blocks do not overlap |
| `Heaps.ArenaHasLiveBlock` | src/kernel/memory.c:413-542 | an arena's counter is the number of its blocks on the free list, and no arena without a live block survives a call |
| `Heaps.NothingLiveNothingHeld` | src/kernel/memory.c:503-542 | with nothing live no arena is held and every free list is empty |
| `Heaps.MallocConserves` | src/kernel/memory.c:413-500 | a virtual page is taken iff it was before the first call or an arena covers it |
| `Heaps.FreeConserves` | src/kernel/memory.c:503-542 | the same through `sys_free` |
| `Heaps.OtherKeeps` | src/kernel/memory.c:145-409 | page operations of others, on this or other address spaces, keep the heap's invariant |
| `Heaps.RunKeepsHeap` | src/kernel/memory.c:413-542 | both hold after every run of valid calls, whatever pages others take and give back in between |
| `Heaps.EverythingReturned` | src/kernel/memory.c:413-542 | when everything allocated has been freed, the pages in use are those of others, and the page bitmap is what it was if these took none |
| `Heaps.TakeKeeps` | src/kernel/memory.c:492-498 | the first block of a free list was not live, and taking it keeps the invariant |
| `Allocation.Allocator.FillArena` | src/kernel/memory.c:476-490 | the loop appends all blocks of a new arena to the free list; its assertion fails iff one of them is there |
| `Allocation.Allocator.Malloc` | src/kernel/memory.c:413-500 | computes `SysMalloc` |
| `Allocation.Allocator.FindClass` | src/kernel/memory.c:461-467 | the smallest size class that fits |
| `Allocation.Allocator.DrainArena` | src/kernel/memory.c:530-536 | the loop takes exactly the arena's blocks off the free list, each found there |
| `Allocation.Allocator.Free` | src/kernel/memory.c:503-542 | computes `SysFree` on live blocks |
| `Forking.CopyKeeps` | src/userprog/fork.c:45-87 | after any number of visited bits the child has exactly those pages, in frames of its own, with equal contents |
| `Forking.ForkCopies` | src/userprog/fork.c:28-87 | the child maps exactly the parent's pages, in frames that were free and nobody shares, with equal contents; nothing else changes, and all structures agree |
| `Forking.ForkInRun` | src/userprog/fork.c:142-175 | so it is for every `fork` in every reachable state |
| `Forking.Forker.CopyBody` | src/userprog/fork.c:45-87 | the byte and bit loops copy the pages in order |
| `Ide.RegisterFaithful` | src/device/ide.c:89-135 | a count of 256 becomes 0 in its register and means 256 |
| `Ide.Drive.Read` | src/device/ide.c:152-194 | every sector arrives once at its place in the buffer; refused exactly when nothing is asked for or a command starts past the disk |
| `Ide.Drive.Write` | src/device/ide.c:197-236 | every sector is written from its place in the buffer and no other sector changes |
| `IdeHandshake.StepKeeps` | src/device/ide.c:107-236 | no assertion of driver, handler or semaphore fails, interrupts at any moment included |
| `IdeHandshake.RunKeeps` | src/device/ide.c:152-236 | the invariant holds after every run |
| `IdeHandshake.ThreeCombinations` | src/device/ide.c:332-347 | flag and semaphore are (false,0), (true,0) or (false,1) in every reachable state |
| `IdeHandshake.NoLostCompletion` | src/device/ide.c:332-347 | a sleeping thread is woken by the next interrupt and gets through the semaphore |
| `IdeHandshake.OneCompletionPerCommand` | src/device/ide.c:152-236 | commands and completions alternate, each completion taken by the thread that issued the command |
| `IdeHandshake.TransferCounts` | src/device/ide.c:152-236 | between taking and giving back the lock for n commands a thread issues n commands and takes the completion of each before the next, and nobody else does anything on the channel |
| `IdeHandshake.HolderMoves` | src/device/ide.c:152-236 | whoever has the lock can go on, or sleeps and the interrupt is expected |
| `IdeHandshake.FreeToTake` | src/device/ide.c:152-236 | an unlocked channel can be taken by every thread |
| `Layouts.SoundFrom` | src/fs/fs.c:20-56 | the regions are disjoint and inside the partition exactly from 613 sectors on |
| `Layouts.NothingWasted` | src/fs/fs.c:20-56 | at most one sector of the partition is left over, and one more for every 8 GB |
| `Layouts.FillBitmap` | src/fs/fs.c:76-88 | the loops set exactly the bits past the data sectors and, from 8 blocks on, bit 0 |
| `Layouts.BufferSuffices` | src/fs/fs.c:68-83 | when the `memset` stays inside the buffer, exactly; always on the disks the driver supports |
| `Layouts.FillCoversBitmap` | src/fs/fs.c:76-89 | every sector of the bitmap that is written was filled |
| `Layouts.AreaOkFrom` | src/fs/fs.c:166-171 | from 620 sectors on, and not below, the mounted bitmap protects the root directory and everything past the data |
| `Layouts.FormattedFits` | src/fs/fs.c:20-112 | a formatted partition meets what file operations rest on |
| `Layouts.FormattedTable` | src/fs/fs.c:103-112 | opening the root finds its inode, and every other slot of the table is zero |
| `Layouts.FormattedInv` | src/fs/fs.c:91-112 | from 620 sectors on, the invariant of the file system holds when a formatted partition is mounted |
| `Layouts.AllocationsInside` | src/fs/file.c:64-74 | every block handed out is a free data sector of the partition |
| `Layouts.SmallPartition` | src/fs/fs.c:76-88 | with 1 to 7 data sectors the first block handed out is the root directory's |
| `InodeTables.SlotGeometry` | src/fs/inode.c:14-39 | slots are inside the table and inside the one or two sectors named, and do not overlap |
| `InodeTables.ReadSlot` | src/fs/inode.c:109-117 | picks the slot's 76 bytes out of the sectors it reads |
| `InodeTables.PatchBytes` | src/fs/inode.c:60-75 | read, patch and write back changes exactly the bytes of the slot |
| `InodeTables.SlotsAfterPatch` | src/fs/inode.c:60-75 | the slot holds what was put there, and every other slot and sector is as before |
| `InodeTables.SyncThenOpen` | src/fs/inode.c:42-124 | below 256, a synced inode opens with the same number, size and blocks, straddling or not |
| `InodeTables.SyncChangesOneSlot` | src/fs/inode.c:42-76 | no other slot changes |
| `InodeTables.SyncOfLargeNumber` | src/fs/inode.c:43-46 | from 256 on the inode's own slot is stale and another one is overwritten |
| `InodeTables.DeleteThenOpen` | src/fs/inode.c:162-184 | the slot is zero and the others are unchanged |
| `InodeTables.CloseUndoesShare` | src/fs/inode.c:81-90 | closing undoes opening an inode that was open |
| `InodeTables.InodeStore.Open` | src/fs/inode.c:79-124 | shares an open inode or loads it; closing it again restores the list; numbers stay distinct |
| `InodeTables.InodeStore.Close` | src/fs/inode.c:127-143 | counts down and removes at zero |
| `InodeTables.InodeStore.WriteBack` | src/fs/inode.c:42-76 | the slot of the low byte holds the inode, no other slot or sector changes, and below 256 a later open finds it |
| `InodeTables.InodeStore.Erase` | src/fs/inode.c:162-184 | a later open finds an empty inode and no other slot or sector changes; numbers from 4096 on fail the assertion |
| `BlockMaps.AddEntry` | src/fs/file.c:312-327 | a new block is distinct from all others of the file and from its table |
| `BlockMaps.TookEntry` | src/fs/file.c:64-74 | exactly the new block becomes taken, and it was free |
| `BlockMaps.FirstClear` | src/fs/file.c:64-74 | there is a block to hand out iff the free count is positive, and it is a data sector |
| `Files.Content` | src/fs/file.c:426-520 | the bytes of a file: its blocks in order, as long as its size |
| `Files.StoreChunk` | src/fs/file.c:396-418 | one pass of the write loop appends its chunk and disturbs nothing stored before |
| `Files.SectorsDecide` | src/fs/file.c:233-423 | a file whose own sectors and bits are kept has the same blocks and content |
| `FileRuns.EffectKeeps` | src/fs/file.c:64-74 | a step that changes only blocks of its own number, and takes only free ones, keeps one owner per block over all files and directories |
| `FileRuns.WriteKeeps` | src/fs/file.c:233-423 | a write appends to its file, keeps every block with one owner and its bit set, and leaves all other files, directories and slots alone |
| `FileRuns.CreateKeeps` | src/fs/file.c:54-61 | a new file has a fresh number and no content, and nothing else changes |
| `FileRuns.ReleaseKeeps` | src/fs/inode.c:187-236 | a release, which the assertion lets through only for an inode found in its own slot, gives back exactly the file's blocks and number |
| `FileRuns.CarriedFile` | src/fs/inode.c:187-189 | the inode found in a slot with its own number has the blocks and content of the file |
| `FileRuns.MakeDirKeeps` | src/fs/fs.c:619-642 | a new directory gets a fresh number and a free block, and nothing else changes |
| `FileRuns.ChangeDirKeeps` | src/fs/dir.c:118-328 | a directory that takes or gives back a block changes no file and no other directory |
| `FileRuns.RemoveDirKeeps` | src/fs/dir.c:394-415 | removing a directory gives back exactly its blocks and number |
| `FileRuns.RunKeeps` | src/fs/file.c:233-423 | after every run over files and directories each file holds exactly what was written to it since its creation, and every block has one owner |
| `FileRuns.BitmapsRestored` | src/fs/inode.c:187-236 | once all files of a run are released and the directories are as at the start, both bitmaps are what they were |
| `FileRuns.ReopenedContent` | src/fs/inode.c:79-124 | after every run, opening a file from the disk yields its content, and `inode_release` passes its assertion, exactly when its number is below 256 and no other number with the same low byte was written after it |
| `FileRuns.ReopenedDir` | src/fs/inode.c:79-124 | the same for directories and their blocks |
| `FileRuns.LastOwn` | src/fs/inode.c:43-46 | in particular while no other number with that low byte occurs |
| `FileRuns.LargeNumberNotReopened` | src/fs/inode.c:42-46 | from 256 on it does not: the slot of a new file is not written and another one is |
| `FileSystems.FileSystem.BlockAlloc` | src/fs/file.c:64-74 | the first free block; stops the kernel exactly when there is none |
| `FileSystems.FileSystem.InodeAlloc` | src/fs/file.c:54-61 | the first free number; stops the kernel exactly when there is none |
| `FileSystems.FileSystem.CreateInode` | src/fs/inode.c:146-159 | a zeroed inode with the first free number, in its slot on disk |
| `FileSystems.FileSystem.AddBlocks` | src/fs/file.c:346-366 | the allocation loops extend the block map in order and fail exactly when too few blocks are free |
| `FileSystems.FileSystem.CollectDirect` | src/fs/file.c:305-327 | case 1: only direct blocks are added |
| `FileSystems.FileSystem.CollectCrossing` | src/fs/file.c:328-367 | case 2: the table is created and written with the first indirect blocks |
| `FileSystems.FileSystem.CollectIndirect` | src/fs/file.c:368-390 | case 3: the table is read, extended and written back |
| `FileSystems.FileSystem.Collect` | src/fs/file.c:279-391 | the file gets exactly size/512+1 blocks, old ones kept, and the addresses to be written are in `all_blocks` |
| `FileSystems.FileSystem.Fill` | src/fs/file.c:393-418 | the write loop appends the buffer, changes only the file's blocks, and leaves the position at size-1 |
| `FileSystems.FileSystem.FileWrite` | src/fs/file.c:233-423 | -1 iff the limit is passed; stops iff exactly at the limit or too few blocks are free; otherwise appends as `Wrote` says |
| `FileSystems.FileSystem.Gather` | src/fs/file.c:455-496 | the addresses of the blocks to be read, and the table exists whenever it is needed |
| `FileSystems.FileSystem.FileRead` | src/fs/file.c:426-520 | the content from the position on, clipped at the end; -1 at the end; stops iff the part ends in block 139 |
| `FileSystems.ReadAfterRun` | src/fs/file.c:426-520 | after every run a read returns exactly the bytes written there, and -1 at the end |
| `FileSystems.CreateIsStep` | src/fs/inode.c:146-159 | what the creation of an inode ensures is a step of the runs |
| `FileSystems.WriteIsStep` | src/fs/file.c:233-423 | so is what a write that succeeds ensures |
| `FileSystems.ReleaseIsStep` | src/fs/inode.c:187-236 | and what a release ensures of the inode from the file's slot |
| `FileSystems.FileSystem.ReleaseBlocks` | src/fs/inode.c:191-225 | the loops clear exactly the bits of the file's blocks and table |
| `FileSystems.FileSystem.InodeRelease` | src/fs/inode.c:187-236 | blocks, number and slot are given back |
| `Directories.FormattedRootOk` | src/fs/fs.c:117-133 | a formatted partition has a sound root directory with "." and ".." alone |
| `Directories.FillSlot` | src/fs/dir.c:202-210 | filling a free slot inserts the entry at its place among the live ones |
| `Directories.InsertKeeps` | src/fs/dir.c:118-215 | size is 24 times the live slots, and every block past the first has one, after an insertion, which adds its entry once, or twice where it opens a block |
| `Directories.DeleteKeeps` | src/fs/dir.c:218-328 | the same after a deletion, which takes out exactly the entry found |
| `Directories.InsertThenDelete` | src/fs/dir.c:191-208 | deleting a new entry stops the kernel iff the free slot before the insertion was in a block that was not there; otherwise every slot is as before |
| `Directories.FailureReachable` | src/fs/dir.c:143-208 | twenty different entries in a formatted root lead to such a directory |
| `Directories.RunKeeps` | src/fs/dir.c:118-328 | the directory is sound after every run of insertions and deletions |
| `Directories.EmptyMeansDots` | src/fs/dir.c:387-391 | a size of two entries means that only "." and ".." are live, and then there is no block but the first |
| `DirSectors.EntryRound` | src/fs/dir.h:19-23 | the 24 bytes of an entry read back as that entry |
| `DirSectors.UnpackWith` | src/fs/dir.c:198-210 | overwriting the bytes of a slot changes that slot of the sector and no other |
| `DirDisks.SyncDisk` | src/fs/inode.c:42-76 | the blocks and then the inode: no other sector and no other slot changes, and the inode's slot has the blocks |
| `Directories.TakeBlock` | src/fs/dir.c:149-163 | a new block keeps the bitmap equal to the other blocks plus the directory's own |
| `Directories.GiveBlock` | src/fs/dir.c:279-287 | so does giving one back |
| `DirectoryOps.Directory.PutInBlock` | src/fs/dir.c:198-210 | writes the first free slot of the block to its sector and nothing else |
| `DirectoryOps.Directory.InsertFresh` | src/fs/dir.c:149-208 | the new block holds the entry in its first two slots |
| `DirectoryOps.Directory.Insert` | src/fs/dir.c:118-215 | uses the first free slot of the directory, takes exactly the block it opens, as the runs of the file system assume; stops iff a block is needed and none is free |
| `DirectoryOps.Directory.InsertAndSync` | src/fs/file.c:147-155 | with the inode written too: the directory is sound, on the disk what it is in memory, and only its own sectors and slot changed |
| `DirectoryOps.ChangeIsStep` | src/fs/dir.c:118-328 | that is the step of a directory in the runs of the file system |
| `DirectoryOps.FormattedSystem` | src/fs/fs.c:117-133 | a formatted partition has its root directory on the disk |
| `DirectoryOps.AccountedFor` | src/fs/dir.c:149-163 | in every sound state of the file system the blocks of a directory are accounted for as insertion and deletion need it |
| `DirectoryOps.ScanBlock` | src/fs/dir.c:253-269 | the counting pass: the match, the number of named entries, whether "." is there; stops iff two entries match |
| `DirectoryOps.Directory.Delete` | src/fs/dir.c:218-328 | clears the first match, frees its block iff it was alone in a block other than the first; stops iff a second match shares its block; only its own sectors and slot change, and the disk has what memory has |
| `DirectoryOps.Directory.ReadNext` | src/fs/dir.c:331-383 | the live entry at the position, or NULL past the last |
| `DirectoryOps.Directory.ReadAll` | src/fs/dir.c:331-383 | reading from 0 yields every live slot once, in slot order, then NULL |
| `DirectoryOps.Directory.IsEmpty` | src/fs/dir.c:387-391 | no slot but the first two is live |
| `DirectoryOps.Directory.OnlyFirstBlock` | src/fs/dir.c:395-401 | the assertions of `dir_remove` hold exactly when there is no block but the first, which is so in an empty directory |
| `DirectoryOps.Directory.Search` | src/fs/dir.c:30-91 | the first slot of a present block with the name, or none has it; a live entry unless the name is empty |
| `Paths.PathParse` | src/fs/fs.c:258-275 | the first component and the rest |
| `Paths.ParseComps` | src/fs/fs.c:258-275 | parsing takes the first component off the list of components |
| `Paths.PathDepth` | src/fs/fs.c:278-293 | the number of components, less one unless the path ends in a slash or is empty |
| `Paths.CutLast` | src/shell/buildin_cmd.c:30-45 | cutting at the last slash is going to the parent |
| `Paths.WashPath` | src/shell/buildin_cmd.c:12-62 | the rendering of the walk through the components |
| `Paths.CompsRender` | src/shell/buildin_cmd.c:46-53 | a rendered path parses back to its names |
| `Paths.WashIsCanonical` | src/shell/buildin_cmd.c:12-62 | the result re-parses to the end of the walk, has no "." or "..", and is a fixed point |
| `Paths.WashIsTidy` | src/shell/buildin_cmd.c:48-52 | no doubled slash, none at the end but in the root |
| `Paths.WashDots` | src/shell/buildin_cmd.c:24-57 | a "." can be left out anywhere, a name and a ".." after it cancel, ".." at the root is the root, and a path without dots stays as it is |
| `Paths.MakeClearAbsPath` | src/shell/buildin_cmd.c:65-82 | a relative path is walked from the current directory |
| `Trees.FormattedTree` | src/fs/fs.c:117-133 | the tree of a formatted partition is well formed |
| `Trees.StepUp` | src/fs/fs.c:780-833 | in its parent, the first slot with a directory's number names it |
| `Trees.GetChildName` | src/fs/fs.c:796-833 | appends the name of the first slot with the number; fails iff there is none; stays inside the buffer iff the result is shorter than 512 |
| `Trees.ClimbStep` | src/fs/fs.c:861-868 | one level up: a directory of the tree, one level higher, whose name for the child goes at the end of the reversed path |
| `Trees.ClimbUp` | src/fs/fs.c:859-868 | terminates at the root with the names in reverse order; every write is inside the buffer iff they are shorter than 512 in all |
| `Trees.TurnAround` | src/fs/fs.c:869-877 | the second loop puts the names in order from the root down; every copy is inside the caller's buffer iff the path is shorter than it |
| `Trees.GetCwd` | src/fs/fs.c:838-880 | the path of the current directory; stops iff it is longer than the buffer; a write leaves its buffer iff the path has 512 characters or more, or exactly as many as the caller's buffer (for the root also when the buffer is shorter, as nothing is tested there) |
| `Trees.SearchFindsPath` | src/fs/fs.c:297-361 | searching the path of a directory finds the directory |
| `Trees.SearchFile` | src/fs/fs.c:297-361 | the walk down the tree, ending at the first regular file; none of its assertions fails on an absolute path shorter than 512; a path of slashes alone returns the unset variable; the record names the directory with the entry, or the one in which the first missing component was looked for, and the path searched |
| `Trees.SearchStopsAtFile` | src/fs/fs.c:337-350 | a path that goes on behind a regular file leads to that file |
| `Trees.CwdRoundTrip` | src/fs/fs.c:838-880 | what `sys_getcwd` gives leads `search_file` back to the current directory |
| `Trees.WashSearch` | src/shell/buildin_cmd.c:12-62 | the washed path leads where the path leads, as long as all but its last component are directories |
| `Trees.RelativeSearch` | src/shell/buildin_cmd.c:65-82 | a relative path made absolute leads where the search from the current directory leads |
| `TreeEdits.InsertedAdds` | src/fs/dir.c:118-215 | what `sync_dir_entry` does to the slots is what the edits of the tree assume |
| `TreeEdits.EditKeeps` | src/fs/dir.c:118-328 | adding a new number under a new name, and taking out the entry of a file or of an empty directory, keeps the tree well formed: every directory is listed by its parent, one level up, every number in one directory only |
| `TreeEdits.AddUses` | src/fs/dir.c:118-215 | an addition uses exactly one number more |
| `TreeEdits.RemoveUses` | src/fs/dir.c:218-328 | after a removal nothing in the tree has the number, and all others are used as before |
| `TreeRuns.DepthTest` | src/fs/fs.c:278-293 | comparing the two depths decides whether only the last component is missing, although neither is the number of components |
| `TreeRuns.OpenTarget` | src/fs/fs.c:364-409 | the tests of `sys_open` let exactly the paths through whose last component alone is missing, with the right directory and name |
| `TreeRuns.MkdirTarget` | src/fs/fs.c:595-617 | so do those of `sys_mkdir` |
| `TreeRuns.FindFine` | src/fs/fs.c:297-361 | a search that ends in a directory ends with the last component, which is its name in the parent, or leads to the searched directory itself or to its parent |
| `TreeRuns.RmdirFindsEntry` | src/fs/dir.c:394-415 | the entry of an empty directory is found exactly when the path does not end in "." |
| `TreeRuns.StepKeeps` | src/fs/fs.c:364-777 | every creation and removal, refused or not, keeps the tree well formed and the inode bitmap equal to the numbers in it, exactly when it does not remove an empty directory by a path that ends in "." |
| `TreeRuns.RunKeeps` | src/fs/fs.c:364-777 | so every state of a run is sound exactly when no step does that |
| `TreeRuns.DropReachable` | src/fs/fs.c:751-777 | a run from a formatted partition: "/a" is made, removed as "/a/." and still found, and then names the new directory "/b" |
| `TreeRuns.PathsAfterRun` | src/fs/fs.c:838-880 | after every run without such a step the path of each directory leads from the root to it, and the numbers taken are those of the tree |
| `TreeEffects.TargetExact` | src/fs/fs.c:364-409 | a creation is let through exactly when the path ends in a name, and that name is missing in the directory to which the other components lead |
| `TreeEffects.CreateEffect` | src/fs/fs.c:364-420 | then the path leads to a regular file with the first free number, whose bit is set, and every other path leads where it led; otherwise nothing changes |
| `TreeEffects.MakeDirEffect` | src/fs/fs.c:587-700 | the same for a directory, which is empty and whose ".." leads to where it was made |
| `TreeEffects.UnlinkEffect` | src/fs/fs.c:533-584 | after the removal of a file that is not open the path leads nowhere, its bit is clear, and every other path leads where it led; an open file, a directory or a missing path changes nothing |
| `TreeEffects.RmdirEffect` | src/fs/fs.c:751-777 | the same for an empty directory by a path that does not end in "."; paths through it lead nowhere |
| `TreeEffects.StepExists` | src/fs/fs.c:364-777 | a call has an outcome exactly when it is not about the root, its entry is alone in its block, and there is a slot and a number for a new one |

## Left out

- Boot code, assembly, the context switch, descriptor tables, port I/O and `busy_wait`: switching is "the current thread becomes the next", the disk is a sequence of sectors.
- TLB invalidation and CR3: a page table is a map per address space. Kernel page-directory entries count as present.
- Locks around the allocators: their calls are modelled one at a time; that locks exclude is proved in `Locks`.
- `Heaps.MallocKeepsHeap`: the zeroing of allocated memory is not modelled, because blocks have no contents in the heap model.
- `Heaps.RunKeepsHeap`: after `fork` the arenas of a child point at the parent's descriptors; a run is of one heap that started empty.
- `Locks.ReleaseMatchesDepth`: the nesting depth is not bounded by the width of `holder_repeat_nr`.
- Branches for a failed `sys_malloc` inside the file system.
- On-disk copies of the bitmaps (`bitmap_sync`): claims are about the in-memory bitmaps, because the code does not keep the two equal.
- `FileSystems.FileSystem.FileWrite`: the one-sector buffer handed to `inode_sync` overflows when the slot straddles sectors; the write of the slot is modelled with a buffer that is large enough. Buffers are at most 3 GB, as a 32-bit address space implies.
- File descriptors beyond the position, `write_deny`, and sharing of descriptors across `fork`.
- `DirectoryOps.Directory.Insert`: within the 12 direct blocks, because the code never loads the indirect table of a directory; `Null` stands for going on to the indirect blocks. Names are shorter than their 16-byte field.
- `Paging.MfreeKeeps`: freeing a page that is not mapped, where the code goes on with whatever the absent entry holds; the model stops there.
- `FileRuns.WriteKeeps`: writes through an inode that was opened from a slot holding another number; `FileRuns.ReopenedContent` says when a slot does. Directories other than the root change only while their slot carries their number.
- `TreeRuns.StepKeeps`: inodes and blocks, so also slots that hold another number and creations for which the directory or the disk is full; a path of slashes alone, whose number was never set. A step that fails an assertion is no step.
- `Trees.GetCwd`: a current directory that was removed, which nothing prevents; and the result for a path of 512 characters and more, where the code writes behind a buffer; that it does so exactly then is stated.
- Paths with components of 16 characters and more, which overflow the name buffers.
- The list traversal with a callback, the console, printing, the keyboard tables, the shell, ELF loading, the partition scan, disk identification, and unique process numbers.
