# Unix V6++ kernel: a verified model

Dafny models of the bookkeeping at the heart of the kernel, with proofs of what it is for.

- **Paging** (`Paging*.dfy`): demand paging with fork copy-on-write, reverse maps and swap. A
  pure layer (`PagingState`, `PagingInvariant` and the `…Step` lemmas) gives the effect of each
  elementary action; the class `Kernel` performs them in place as the methods of
  `MemoryDescriptor`, `UserPageManager` and `SwapManager` do. `PagingRuns.Run` is the main
  result: any sequence of faults, stores, forks, heap changes, exits, reclaims and page-table
  rebuilds, by any processes, is a run of flat private memories. `PagingGuards` and
  `PagingClock` say what the clock may drop, `PagingLosses` shows the runs that lose data, and
  `SwapArea` that the disk blocks of a slot keep the page the slot is said to hold.
- **File system** (`DiskBlocks`, `FreeChain`, `Volume*`, `FileBlocks`, `FileRuns`, `FullDisk`,
  `ImageTool`): the chained free list stored inside the free blocks, `Bmap`/`ITrunc` trees drawn
  from it, and `ReadI`/`WriteI` as a byte array, on a disk that may fill up at any block. Every
  data block has exactly one owner at all times. The chain the image tool writes is the chain the
  kernel reads.
- **Buffer cache** (`Buffer*.dfy`): `GetBlk`, delayed and asynchronous writes, read-ahead, the
  request queue and the completion interrupt, against a plain block array.
- **Protocols** (`Pipe`, `Semaphore`, `IntrusiveList`, `Scheduling`): steps between two sleeps.
  In `Pipe`, `Semaphore` and `BufferRuns` a state comes after another in some run when it is in every set
  of states that contains the other and that no step leaves.
- **Memory** (`ExtentMap`, `KernelHeap`, `PageBitmap`, `AddressSpace`): the coalescing first-fit
  map edited in place, the kernel heap on top of it, the page bitmap, and the region layout of
  an address space.

Fields that a source object mutates are class fields here; what is proved about them is stated
over a pure snapshot (`State()`, `Now()`). Ghost fields carry what the kernel leaves implicit:
who owns a block, what a plain disk would hold, what was written to a pipe.

## Findings

Where the code falls short of its purpose, the model keeps the code and the exact condition
is proved.

- `CloneFrom` copies a swapped page's slot reference without marking it copy-on-write. Isolation
  after fork holds exactly when every swapped page of the parent is marked
  (`PagingFork.ForkDone`); any unmarked one ends up writable for parent and child on one frame,
  and the parent reads what the child stores (`PagingFork.UnmarkedForkLeaks`; from a fresh kernel,
  `PagingLosses.ForkLeaks`).
- The clock drops a page of an executable on a frame that is not copy-on-write as soon as it has
  no dirty bit, whatever it holds. Such a page loses its bytes exactly when it is clean, on an
  unshared frame, and different from the file (`PagingKernel.Kernel.TryFrame`,
  `PagingGuards.LostIffUnguarded`). Three things bring a page there: rebuilding its page-table
  entry, swapping it in other than for a store, and a copy-on-write fault until the store that
  faulted is repeated (`PagingLosses.LostByRebuild`, `PagingLosses.LostBySwapIn`,
  `PagingLosses.LostByFault`; from a fresh kernel, `PagingLosses.LostFromStart` and
  `PagingLosses.FaultFromStart`). Nothing else does: without the first two, and with a store and its
  fault in one step, the pages of executables take part in the flat memory of `PagingRuns.Run`
  (`PagingRuns.Step`, `PagingRuns.TraceIsReplay`).
- The last close of one end of a pipe unlocks the inode even while a reader of the other end is
  inside `ReadI`, or while `UpdateInodeTable` is writing the inode out and will unlock it once
  more. The stream stays whole exactly when, with something left to read, no last close of the
  write end does that while two processes have the read end open, and the only reader does not
  fork before such an update is over (`Pipe.NextKeepsInv`, `Pipe.StreamOverAnyRun`); otherwise
  bytes can come out twice (`Pipe.RiskyDuplicates`, `Pipe.StreamCanBreak`, `Pipe.SyncCanBreak`).
- When the disk fills up below an index block that `Bmap` has just allocated, the block stays
  linked to the file but the buffer in which it was cleared is released without being written.
  That happens exactly when there are free blocks, but fewer than the way to the slot lacks
  (`FileBlocks.Inode.Bmap`, `VolumeSpace.Torn`). Unless the block was in the buffer cache already,
  it is then read back with the bytes it had, and every block still has one owner exactly when
  those were all zero (`FullDisk.TornIndexOwned`); otherwise another file's block can become part
  of this one (`FullDisk.TornIndexReads`, `FullDisk.LeakOnFullDisk`).
- After ENOSPC `Alloc` leaves `s_nfree` at 0, and when it is called again before a block is freed
  it reads `s_free[-1]`. A read or write avoids that exactly when no block it touches is missing
  (`FileRuns.Possible`, `VolumeSpace.AllMappedIsRoom`); this and the index block above are all that
  breaks off a run of `FileRuns.Run`.
- `ConfigureExecutableLayout` refuses a non-empty data segment that read-only data and bss cover
  between them, because the empty anchor region it then adds is out of order
  (`AddressSpace.MemoryDescriptor.ConfigureExecutableLayout`).
- `operator new` rounds the sizes from 2^32 - 15 to 2^32 - 9 to a block of 0 bytes and hands out
  memory that stays free (`KernelHeap.TotalSizeFits`, `KernelHeap.KernelAllocator.KernelHeapAllocate`).
- `GrowStackByPage` does not look at the heap: called, as by `SStack`, with less than a page of
  room it makes the regions overlap, and exactly then
  (`AddressSpace.MemoryDescriptor.GrowStackByPage`).
- A semaphore token granted to a process that a signal reaches before it runs again is lost
  (`Semaphore.SemaphoreManager.Resume`).
- On a chain with nothing left but its end mark the image tool hands out block 0 where the kernel
  reports ENOSPC (`ImageTool.FileSystemAdapter.GetFreeBlock`).

## Model

| member | source | states |
|---|---|---|
| `PagingRuns.Run` | src/proc/MemoryDescriptor.cpp:1064-1427 | any sequence of operations by any processes, the loading of executables included, leaves every zero-filled page, and every page of an executable while none was exposed, with what a private flat memory replaying the operations that went through would hold; each refusal is explained, and the run breaks off only at a fork outside the model or with a share counter at its limit |
| `PagingRuns.Step` | src/proc/MemoryDescriptor.cpp:1064-1118 | one operation refines its flat counterpart, loses no frame, and leaves no page of an executable to the clock unless it is a rebuild or a swap-in of an altered page; an allowed access is refused only when memory is exhausted and reclaim has nothing to give back, and never one that needs no frame |
| `PagingRuns.TraceIsReplay` | src/proc/MemoryDescriptor.cpp:1064-1427 | over a whole run the last state's flat memory is the replay of the operations that went through, pages of executables included if nothing exposed them |
| `PagingRuns.TraceIsTidy` | src/mm/PageManager.cpp:242-410 | no run loses a frame: after each operation every frame in use but the zero page is mapped, and none is pinned |
| `PagingRuns.ForkIsFlat` | src/proc/MemoryDescriptor.cpp:579-774 | a completed fork is the flat copy of the parent's memory and nothing else |
| `PagingTheorems.FrameCountsMappers` | src/mm/PageManager.cpp:359-410 | a frame's map count and its reverse-map list are exactly the pages resident on it, across all processes |
| `PagingTheorems.SlotCountsSharers` | src/mm/SwapManager.cpp:85-233 | a used slot counts exactly the pages naming it and the resident ones among them, and its resident frame is the common frame of these or none |
| `PagingTheorems.ZeroPageStaysZero` | src/mm/PageManager.cpp:207-217 | the zero page is reserved, pinned, all zero, mapped read-only by everyone, and carries one reference more than mappings |
| `PagingTheorems.AbsentSharersHoldAReference` | src/proc/MemoryDescriptor.cpp:1376-1427 | while a sharer of a slot is still swapped out, the frame that came back has at least one reference more than mappings and is mapped read-only |
| `PagingTheorems.NothingKept` | src/mm/PageManager.cpp:359-410 | when the last page has gone every frame but the zero page and every swap slot is free |
| `PagingGuards.LostIffUnguarded` | src/mm/PageManager.cpp:583-636 | freeing its frame costs a page its bytes exactly when it is a page of an executable without dirty bit, on a frame that is not copy-on-write, and differs from the file |
| `PagingLosses.LostByRebuild` | src/proc/MemoryDescriptor.cpp:2346-2381 | a store to a page of an executable, a rebuild of the page tables and one turn of the clock: the store is gone |
| `PagingLosses.LostBySwapIn` | src/proc/MemoryDescriptor.cpp:1376-1427 | a store, the way out to a swap slot and back, and one turn of the clock: the store is gone |
| `PagingLosses.LostByFault` | src/proc/MemoryDescriptor.cpp:1171-1228 | an altered page guarded only by its frame's copy-on-write mark, a write fault, and one turn of the clock before the store is repeated: the page is the file's again |
| `PagingLosses.LostFromStart` | src/proc/MemoryDescriptor.cpp:1444-1560 | the first two losing runs from a fresh kernel that has loaded one page of an executable |
| `PagingLosses.FaultFromStart` | src/proc/MemoryDescriptor.cpp:1171-1228 | the third, through a store, a rebuild, a fork and a copy-on-write fault |
| `PagingSharing.WritableIsSole` | src/proc/MemoryDescriptor.cpp:1171-1191 | a writable mapping is the only use of its frame: no other page maps it and no swapped page waits for it |
| `PagingSharing.OneReferenceIsSole` | src/proc/MemoryDescriptor.cpp:1171-1191 | the last-reference branch of the copy-on-write fault is taken only when nobody else depends on the frame |
| `PagingSharing.SwapInGood` | src/proc/MemoryDescriptor.cpp:1376-1427 | mapping a swapped page onto the slot's frame keeps the invariant and what every page reads, and the slot never refuses the frame |
| `PagingSharing.ForkResidentStep` | src/proc/MemoryDescriptor.cpp:659-774 | sharing a resident page copy-on-write keeps the invariant, every other page's contents, and gives the child the parent's |
| `PagingSharing.ForkSwappedStep` | src/proc/MemoryDescriptor.cpp:579-657 | copying a marked swapped page's slot reference keeps the invariant and gives the child the parent's contents |
| `PagingSharing.MakeWritableStep` | src/proc/MemoryDescriptor.cpp:1171-1191 | making the sole mapping writable keeps the invariant and all contents |
| `PagingSharing.StoreByteStep` | src/proc/MemoryDescriptor.cpp:1120-1229 | a store through a writable mapping changes that byte of that page and no other page |
| `PagingBookkeeping.RemapPageStep` | src/proc/MemoryDescriptor.cpp:2346-2381 | rebuilding a page-table entry keeps write permission off every frame somebody else depends on |
| `PagingBookkeeping.SlotSharersBounded` | src/mm/SwapManager.cpp:107-114 | a slot has at most one sharer per process, so its counters cannot overflow |
| `PagingInvariant.DetachKeepsInv` | src/proc/MemoryDescriptor.cpp:2435-2509 | detaching a page keeps all counts exact, including the frame and the slot it frees |
| `PagingSteps.DropSwappedStep` | src/mm/SwapManager.cpp:129-152 | releasing a swapped page's reference keeps the sharers' contents and frees the slot with the last |
| `PagingSteps.TakeSlotStep` | src/mm/SwapManager.cpp:85-105 | a new slot with a count of pages still to be moved to it keeps the invariant for the rest |
| `PagingSteps.MapZeroPageStep` | src/proc/MemoryDescriptor.cpp:2255-2291 | mapping the zero page read-only leaves every page reading what it did |
| `PagingEviction.EvictionStep` | src/mm/PageManager.cpp:659-684 | each turn of the eviction loop moves one mapping to the slot and changes no page's contents |
| `PagingEviction.EvictionDone` | src/mm/PageManager.cpp:638-690 | after the loop the frame is free, the slot has all its pages, and nothing reads differently |
| `PagingFork.ForkDone` | src/proc/MemoryDescriptor.cpp:579-774 | after the two clone passes the sharing invariant holds if and only if every swapped page of the parent was marked, and then the child reads what the parent did |
| `PagingFork.UnmarkedForkLeaks` | src/proc/MemoryDescriptor.cpp:600-657 | whichever swapped page of the parent was unmarked, after the two clone passes and the swap-ins of both processes a byte the child stores there is what the parent reads |
| `PagingLosses.ForkLeaks` | src/proc/MemoryDescriptor.cpp:600-657 | from a fresh kernel, a page written and swapped out while private is unmarked; after `Fork` the child's store changes what the parent reads |
| `PagingKernel.Kernel.EnsurePagePresent` | src/proc/MemoryDescriptor.cpp:1361-1609 | a fault brings the page in from zero, file or slot, disturbs nothing any process reads and exposes no other page; a page that is in, all zeros, or back for another sharer takes no new frame and cannot fail, any other fails only when every frame is used and reclaim has nothing to give back |
| `PagingKernel.Kernel.HandleCopyOnWriteFault` | src/proc/MemoryDescriptor.cpp:1120-1229 | a write fault ends with a private writable copy, reclaim in between included; the last reference becomes writable in place, so it needs no frame and cannot fail, any other page gets another frame and fails only when every one is used and reclaim has nothing to give back |
| `PagingKernel.Kernel.UserWrite` | src/proc/MemoryDescriptor.cpp:1064-1229 | a user store with its faults changes exactly the byte stored to; by the only user of a frame it is done in that frame, with every other frame in use or not, and it fails only when every frame is used and reclaim has nothing to give back |
| `PagingKernel.Kernel.Fork` | src/proc/MemoryDescriptor.cpp:579-774 | fork as the two clone calls: the child's memory equals the parent's, all others are undisturbed, and a marked parent is refused only when one of its own pages is on a frame whose counter is at its limit |
| `PagingKernel.Kernel.TryFrame` | src/mm/PageManager.cpp:571-684 | the clock takes a frame exactly when it is mapped, not pinned, not used lately, and discardable or swap has room; only the lost pages of that frame read differently |
| `PagingKernel.Kernel.ReclaimOneFrame` | src/mm/PageManager.cpp:564-690 | the victim is the first frame from the hand on that is eligible and not used lately, the hand stops behind it, and it costs exactly its lost pages their bytes; it fails exactly when there is none, and then every eligible frame has been aged, or when the swap is full and the frame must not be dropped |
| `PagingKernel.Kernel.ReclaimUntilLowWatermark` | src/mm/PageManager.cpp:534-562 | terminates, stops above the watermark only when no frame is eligible or the swap is full, takes no frame more than the watermark asks for, and does nothing without a swap area |
| `PagingKernel.Kernel.AllocatePage` | src/mm/PageManager.cpp:242-274 | the frame handed out is mapped by nobody and no page reads differently; below the high watermark it is the lowest free frame and nothing else happens, and it fails only with every frame in use and, unless reclaim is running, none that reclaim could free |
| `PagingKernel.Kernel.DropPage` | src/proc/MemoryDescriptor.cpp:2311-2344 | a page that leaves takes its references with it and changes no other page's contents |
| `PagingKernel.Kernel.SetHeapPages` | src/proc/MemoryDescriptor.cpp:1747-1823 | shrinking gives the pages back, growing adds zero-filled ones, and every page that stays reads as before |
| `PagingKernel.Kernel.Exit` | src/proc/MemoryDescriptor.cpp:1611-1632 | at exit the process's pages go and nothing any other process reads changes |
| `PagingKernel.Kernel.BuildPageTablesForImage` | src/proc/MemoryDescriptor.cpp:1634-1643 | rebuilding a process's page tables keeps the invariant and all contents |
| `SwapArea.SwapManager.Initialize` | src/mm/SwapManager.cpp:58-78 | as many slots as fit between the data zone and the end of the disk, up to 1024, all free |
| `SwapArea.SwapManager.AllocateSlot` | src/mm/SwapManager.cpp:85-105 | the lowest slot not in use, or none exactly when there is none |
| `SwapArea.SwapManager.WritePage` | src/mm/SwapManager.cpp:279-304 | the frame's page is in the slot's eight blocks and no other block changes, or the call is refused |
| `SwapArea.SwapManager.ReadPage` | src/mm/SwapManager.cpp:249-277 | the frame then holds the page of the slot's blocks and no other frame changes, or the call is refused |
| `SwapArea.ReadBackIsLastWrite` | src/mm/SwapManager.cpp:249-314 | over any series of page writes, a page read back from a slot is the page last written to that slot |
| `SwapArea.ByteOnDisk` | src/mm/SwapManager.cpp:249-314 | byte k of a slot's page is byte k mod 512 of block k / 512 of the slot |
| `SwapArea.FileSystemUntouched` | src/mm/SwapManager.cpp:58-314 | no series of page writes changes a block of the file system |
| `SwapArea.WriteRefinesTakeSlot` | src/mm/SwapManager.cpp:279-304 | a page written for a newly taken slot keeps the disk in step with the pages the paging model has in its slots |
| `SwapArea.OtherStepsKeepStored` | src/mm/SwapManager.cpp:107-233 | no other step changes the page of a slot in use, so none needs the disk |
| `SwapArea.ReadRefinesSlot` | src/mm/SwapManager.cpp:249-277 | with the disk in step, the page read from a slot is the one the paging model has in it |
| `DiskBlocks.GroupRoundTrip` | src/fs/FileSystem.cpp:431-441 | a free table written into a block as little-endian words reads back as the same table |
| `DiskBlocks.GroupWordAt` | src/fs/FileSystem.cpp:431-441 | word 0 of a link block is the count and words 1 to 100 are the table |
| `DiskBlocks.LittleEndian` | src/fs/FileSystem.cpp:431-441 | the words of an index or link block have their lowest byte first |
| `FreeChain.PopTakesTop` | src/fs/FileSystem.cpp:409-458 | Alloc on a chain takes the top of the stack it represents, loading the next table when its own is used up, and reports ENOSPC exactly on the empty stack |
| `FreeChain.PushAddsTop` | src/fs/FileSystem.cpp:499-531 | Free adds the block on top of the represented stack, whether or not the table overflows into the block |
| `FreeChain.AllocUndoesFree` | src/fs/FileSystem.cpp:387-533 | Alloc after Free returns the same block and represents the same chain |
| `FreeChain.ChainFrame` | src/fs/FileSystem.cpp:431-441 | only the contents of free blocks matter to the chain |
| `FileBlocks.FileSystem.Alloc` | src/fs/FileSystem.cpp:387-466 | takes the top free block, cleared, keeps every block owned exactly once, and fails exactly when the chain is empty |
| `FileBlocks.FileSystem.Free` | src/fs/FileSystem.cpp:468-533 | puts a held block on top of the chain and keeps every block owned exactly once |
| `VolumeState.LinkReads` | src/fs/INode.cpp:266-392 | linking a cleared block into an empty slot changes that slot and no other slot of any file |
| `VolumeSteps.LinkStep` | src/fs/INode.cpp:266-392 | linking keeps ownership exact and every file's bytes in place |
| `VolumeSteps.TakeStep` | src/fs/FileSystem.cpp:409-458 | taking and clearing a free block moves no block of any file |
| `VolumeSteps.CutStep` | src/fs/INode.cpp:563-615 | giving up an i_addr entry holds exactly the blocks its subtree names |
| `VolumeSteps.GiveStep` | src/fs/FileSystem.cpp:499-531 | freeing a held block overwrites no block of a file and no other held block |
| `VolumeSteps.PathOfLbn` | src/fs/INode.cpp:266-392 | the slot of a logical block number determines the number, for direct, single- and double-indirect blocks |
| `VolumeSteps.LbnOfPath` | src/fs/INode.cpp:266-392 | every data slot is the slot of exactly one logical block number below HUGE_FILE_BLOCK |
| `VolumeSteps.SlotsAscend` | src/fs/INode.cpp:266-392 | the slots of a file are in the order of its logical blocks, so that the correspondence is the only one there is |
| `VolumeSteps.GrownKeepsBytes` | src/fs/INode.cpp:266-392 | filling holes with cleared blocks changes no byte of any file |
| `FileBlocks.Inode.Bmap` | src/fs/INode.cpp:243-410 | answers the entry of i_addr or of the index blocks that the block number stands for, the one in place if there is one and no block is then taken; the slots missing on the way get the top blocks of the chain, from the tree's top down and as far as they go, and no other slot of the file changes; every byte of every file stays; 0 exactly when they do not suffice or the number is past the largest file, torn exactly when they gave out on the way |
| `FileBlocks.Inode.ITrunc` | src/fs/INode.cpp:539-621 | returns exactly the file's data and index blocks to the chain, each once, in the order the code frees them, reading index blocks only before they are freed |
| `VolumeTruncate.SlotIsListed` | src/fs/INode.cpp:563-615 | every block a slot of the file names is in the list ITrunc frees |
| `VolumeTruncate.ListedSlot` | src/fs/INode.cpp:563-615 | the list ITrunc frees holds no other block |
| `VolumeTruncate.FreedInReverse` | src/fs/INode.cpp:539-615 | it frees a file's blocks in the reverse of the order they make up the file in, so that the chain hands them out again in that order |
| `FileBlocks.Inode.WriteI` | src/fs/INode.cpp:137-241 | writes exactly the bytes below the largest file size in the blocks that there is room for, all of them if there is room; afterwards the file reads as its old bytes, zero-filled up to the offset and overlaid with these; other files are unchanged and exactly the missing blocks are used up |
| `FileBlocks.Inode.ReadI` | src/fs/INode.cpp:44-135 | returns the bytes from the offset up to the count, the end of file or the first hole there is no block for; holes may gain blocks but no byte changes |
| `FileRuns.Perform` | src/fs/INode.cpp:44-621 | a read, write or truncation of any of several files does to it what it would do to a byte array, for exactly the bytes there are blocks for, leaves the others' bytes and in-core inodes intact, and keeps every data block with one owner |
| `FileRuns.Run` | src/fs/INode.cpp:44-621 | any series of such operations, the disk filling up or not, leaves the files as so many byte arrays, each operation transferring exactly what Performed says; it breaks off only before a call of Alloc with s_nfree at 0 or after an index block is left unwritten |
| `FileRuns.AnswersApplied` | src/fs/INode.cpp:44-135 | every read of a run returns what it would from the byte arrays the operations before it leave |
| `FullDisk.TornIndexOwned` | src/fs/INode.cpp:348-401 | once an index block left unwritten is read back, every block has one owner exactly when it held zeros before it was allocated |
| `FullDisk.TornIndexReads` | src/fs/INode.cpp:348-401 | a word it held that names a block of another file makes that block part of this file |
| `FullDisk.LeakOnFullDisk` | src/fs/INode.cpp:388-401 | with one block free, Bmap for block 6 of a file without index block returns 0, and block 6 of that file becomes the other file's block |
| `VolumeBytes.PokeStep` | src/fs/INode.cpp:196-228 | rewriting a data block moves no slot, no index block and no link of the free chain |
| `VolumeBytes.PatchBytes` | src/fs/INode.cpp:196-210 | bytes copied into the block of an offset change these bytes of this file and no other |
| `VolumeBytes.OverwriteContents` | src/fs/INode.cpp:205-231 | growing the size over a write turns the old contents into the overlaid ones |
| `VolumeBytes.OverlayThen` | src/fs/INode.cpp:163-240 | two consecutive writes are one longer write, gap and all |
| `VolumeSpace.RangeStep` | src/fs/INode.cpp:163-180 | mapping one block of a transfer takes exactly the blocks for its own missing slots and leaves to spare for the rest what there was |
| `VolumeSpace.ServedIsMost` | src/fs/INode.cpp:163-180 | a transfer gets as far as there is room for and no further |
| `VolumeSpace.RoomIsEnough` | src/fs/INode.cpp:163-180 | with room for the missing slots of its blocks a transfer stops at nothing but the largest file size, and leaves no index block unwritten |
| `VolumeSpace.AllMappedIsRoom` | src/fs/INode.cpp:163-180 | with no block free there is room for a transfer exactly when each of its blocks is mapped already |
| `VolumeSpace.RoomComes` | src/fs/INode.cpp:163-180 | there is room for a transfer whose blocks are there already, and for any with three free blocks to each of its blocks |
| `ImageTool.FileSystemAdapter.FreeBlock` | tools/v6pp-fs-edit-2022/src/FsEditor/src/FileSystemAdapter/FileSystemAdapter.cpp:584-614 | the image tool's freeBlock leaves the table the kernel's Free would and extends the same chain |
| `ImageTool.FileSystemAdapter.GetFreeBlock` | tools/v6pp-fs-edit-2022/src/FsEditor/src/FileSystemAdapter/FileSystemAdapter.cpp:553-581 | agrees with the kernel's Alloc unless only the end mark is left, where it hands out block 0 |
| `ImageTool.FileSystemAdapter.FreeDataZone` | tools/v6pp-fs-edit-2022/src/FsEditor/src/FileSystemAdapter/FileSystemAdapter.cpp:489-500 | format's loop leaves a chain listing the whole data zone, lowest block on top |
| `ImageTool.FormattedZoneAscends` | src/fs/FileSystem.cpp:409-458 | on such a chain the kernel allocates the data zone in ascending order, each block once, and then reports ENOSPC |
| `ImageTool.AllocsTakeTheStack` | src/fs/FileSystem.cpp:409-458 | any number of allocations, with their clearing of blocks, takes the chain from its top down |
| `BufferRuns.ReadsSeeLastWrite` | src/dev/BufferManager.cpp:221-409 | in any run of steps of any processes and the disk interrupt, a buffer read for a block holds the bytes last written to that block, or what the disk started with; every method of the manager is such a run |
| `BufferRuns.NextLogOk` | src/dev/BufferManager.cpp:327-362 | every step keeps a block's logical contents at the last bytes logged for it |
| `BufferRuns.EditIsLogged` | src/dev/BufferManager.cpp:327-370 | what a process puts into its buffer is what its write, delayed or not, is logged with |
| `BufferCache.ReadIsLastWrite` | src/dev/BufferManager.cpp:221-244 | a held buffer with B_DONE has the block's logical contents |
| `BufferCache.SyncedDisk` | src/dev/BufferManager.cpp:384-409 | with no delayed write and no request left, the disk is the plain block array |
| `BufferCache.BufferManager.GetBlk` | src/dev/BufferManager.cpp:40-137 | a block that is cached is given in its buffer, with its bytes and flags, or waited for while that is in use; any other gets the buffer that has been free for longest, after those with delayed writes in front of it have gone to the disk, or waits when there is none; contents and other processes' buffers are untouched |
| `BufferCache.BufferManager.Bread` | src/dev/BufferManager.cpp:221-244 | a cached block that is done is not read again; otherwise its read is queued last; it disturbs no one |
| `BufferCache.BufferManager.BreadaFirst` | src/dev/BufferManager.cpp:246-270 | the block of a read-ahead read is started like any read, or found cached |
| `BufferCache.BufferManager.BreadaAhead` | src/dev/BufferManager.cpp:272-318 | a block that is not cached is then being read without anybody waiting for it; read-ahead keeps no buffer for the caller and changes no contents |
| `BufferCache.BufferManager.IOWait` | src/dev/BufferManager.cpp:183-201 | when the wait is over the bytes of a read are those last written; a sleeper has a transfer to wait for |
| `BufferCache.BufferManager.Bwrite` | src/dev/BufferManager.cpp:327-345 | from the request on the block's contents are the buffer's bytes, whenever they reach the disk |
| `BufferCache.BufferManager.BwriteRest` | src/dev/BufferManager.cpp:337-354 | when a synchronous write's wait is over the disk has what the block holds, and the buffer is back on the free list |
| `BufferCache.BufferManager.Bawrite` | src/dev/BufferManager.cpp:364-370 | the same without a wait: the interrupt releases the buffer |
| `BufferCache.BufferManager.Bdwrite` | src/dev/BufferManager.cpp:356-362 | the block's contents change at once, the disk not at all |
| `BufferCache.BufferManager.Bflush` | src/dev/BufferManager.cpp:384-409 | no delayed write of the device is left on the free list, each buffer that left it is queued, and no contents change |
| `BufferCache.BufferManager.ATAHandler` | src/dev/ATADriver.cpp:25-71 | completes exactly the head request: the bytes come from the disk or are on it, the buffer of an asynchronous request is free again; the next request is started, no contents and no held buffer change, and a stray interrupt does nothing |
| `BufferSteps.RetaggedStep` | src/dev/BufferManager.cpp:119-136 | reusing a clean buffer keeps one buffer per block, each buffer on one device queue, and no unwritten bytes lost |
| `BufferSteps.ReleasedStep` | src/dev/BufferManager.cpp:139-181 | releasing keeps a buffer on the free list exactly when it is not busy, and strands no sleeper |
| `BufferSteps.WriteQueuedStep` | src/dev/BufferManager.cpp:327-335 | queueing a write keeps the request queue distinct, busy, and apart from the free list whose links it shares |
| `BufferSteps.ReadQueuedStep` | src/dev/BufferManager.cpp:221-244 | the same for a read |
| `BufferSteps.CompletedStep` | src/dev/ATADriver.cpp:43-66 | the interrupt's transfer and IODone keep the disk behind only on blocks some buffer still has to write |
| `Pipe.NextKeepsInv` | src/fs/FileManager.cpp:437-535 | a step of any reader, writer or sync keeps stream, lock and sleepers in order exactly when it is neither a last close of the write end that takes the lock from a reader or from sync while two processes have the read end open and something is left to read, nor a fork of the only reader while such a sync has still to unlock |
| `Pipe.StreamOverAnyRun` | src/fs/FileManager.cpp:437-535 | over any run without such a step, for any readers and writers and with sync in between, what was accepted is what was delivered and then what is in the file, within PIPSIZ |
| `Pipe.CallsOverAnyRun` | src/fs/FileManager.cpp:437-535 | in any run at all, what a write call was given is what the pipe has taken from it and then what it still has to write; what a read call has still to read is what it asked for without what it was handed |
| `Pipe.WriteEnds` | src/fs/FileManager.cpp:484-533 | a pass of WriteP ends the call exactly when the pipe has taken all of it or, with EPIPE, nobody is left to read; it sleeps exactly on a locked inode or a full pipe; otherwise as many bytes as there is room for go in |
| `Pipe.ReadWaits` | src/fs/FileManager.cpp:437-475 | a pass of ReadP ends the call exactly on an empty pipe that nobody can write, and sleeps exactly on a locked inode or on an empty pipe with a writer |
| `Pipe.ReadEndsFull` | src/fs/FileManager.cpp:477-481 | a read goes on until it has what it asked for or the file has nothing left, with more bytes at each turn |
| `Pipe.OthersStay` | src/fs/FileManager.cpp:437-535 | a process stays at its place in its call through the steps of all others, which can wake it but not put it to sleep |
| `Pipe.EndsChangeHands` | src/fs/OpenFileManager.cpp:59-84 | a close takes the end from its process, lowers i_count exactly with the last one, and leaves nobody asleep but for the lock; a fork gives the end to one more process |
| `Pipe.RiskyDuplicates` | src/fs/OpenFileManager.cpp:59-84 | after any such step a run follows in which more bytes come out than went in |
| `Pipe.StreamCanBreak` | src/fs/OpenFileManager.cpp:74-80 | such a run starts from a new pipe |
| `Pipe.SyncCanBreak` | src/fs/OpenFileManager.cpp:260-279 | so does one in which the last writer closes while sync has the inode locked |
| `Pipe.NoLostSleeper` | src/fs/FileManager.cpp:447-515 | in no run at all does a sleeper lack its condition bit, nor a reader sleep for data while a writer sleeps for room |
| `Pipe.LastClosedOk` | src/fs/OpenFileManager.cpp:74-80 | the last close of an end wakes every sleeper |
| `Pipe.StoredLast` | src/fs/FileManager.cpp:518-533 | once a writer has finished its chunk and woken the others, no process is asleep on the pipe |
| `Pipe.RestartedOk` | src/fs/FileManager.cpp:447-461 | a reader that finds nothing left in the file has seen every byte written |
| `Pipe.AwakeCanStep` | src/fs/FileManager.cpp:437-535 | a process in a call that is not asleep can always go on |
| `Pipe.PipeInode.ReadLoop` | src/fs/FileManager.cpp:437-475 | each pass of ReadP up to its next sleep, its transfer or its return |
| `Pipe.PipeInode.ReadStep` | src/fs/FileManager.cpp:477-481 | a block of ReadI hands over the bytes at the read point; at the end of the count or the file ReadP moves f_offset and unlocks |
| `Pipe.PipeInode.WriteLoop` | src/fs/FileManager.cpp:484-522 | each pass of WriteP up to its next sleep: EPIPE exactly with no reader and data left, sleep exactly on a full pipe, else a chunk that fits |
| `Pipe.PipeInode.WriteStep` | src/fs/FileManager.cpp:518-533 | a block of WriteI goes to the end of the file; the last one unlocks and wakes the readers |
| `Pipe.PipeInode.CloseF` | src/fs/OpenFileManager.cpp:59-84 | a close wakes everyone who waits for data or room; the last one of an end lowers i_count and unlocks the inode, whoever holds the lock |
| `Pipe.PipeInode.IPut` | src/fs/OpenFileManager.cpp:223-258 | the count goes down, the lock goes, and those who wait for it wake |
| `Pipe.PipeInode.SyncBegin` | src/fs/OpenFileManager.cpp:264-273 | sync locks an inode that is open and not locked, and leaves any other alone |
| `Pipe.PipeInode.SyncEnd` | src/fs/OpenFileManager.cpp:274-277 | it unlocks the inode in the end, whoever holds the lock by then |
| `Pipe.PipeInode.Signal` | src/proc/Process.cpp:78-116 | a signal takes a process out of its call, in a sleep or on the way out of one, and leaves the stream and the other sleepers as they are |
| `Semaphore.TokensConserved` | src/proc/Semaphore.cpp:58-158 | value plus grants is the initial value plus the posts, and a positive value means nobody waits |
| `Semaphore.TokensOverAnyRun` | src/proc/Semaphore.cpp:25-207 | so in every state of any run |
| `Semaphore.NoOvertaking` | src/proc/Semaphore.cpp:58-158 | in no run does a process get a token at a semaphore while one that came to its queue earlier is still waiting there |
| `Semaphore.SteppedOk` | src/proc/Semaphore.cpp:25-207 | every step keeps queues, wait pointers and tokens consistent and takes no generation back |
| `Semaphore.WaitingIsQueued` | src/proc/Semaphore.cpp:91-99 | a process is in a semaphore's queue exactly when its p_semWaitSem names it |
| `Semaphore.StaleOverAnyRun` | src/proc/Semaphore.cpp:182-226 | the id of a destroyed semaphore never becomes valid again, in any run of Init, Wait, Post, Destroy and signals |
| `Semaphore.DecodeOfEncode` | src/proc/Semaphore.cpp:240-261 | ids name their slot and generation up to generation 2^23 - 1 and are negative, naming nothing, at 2^23 |
| `Semaphore.LastGenerationUnreachable` | src/proc/Semaphore.cpp:209-261 | no id reaches a slot of generation 2^23, so its generation cannot wrap |
| `Semaphore.SemaphoreManager.Init` | src/proc/Semaphore.cpp:25-56 | takes the lowest free slot for a semaphore with the value given and nobody waiting, and returns an id that finds it, or a negative one when its generations are used up; EINVAL and ENOSPC otherwise |
| `Semaphore.SemaphoreManager.WaitLoop` | src/proc/Semaphore.cpp:58-103 | EINVAL exactly for an id that names nothing, a token off the value exactly when there is one, and then nobody is queued; otherwise the caller goes to the end of the queue and to sleep |
| `Semaphore.SemaphoreManager.Resume` | src/proc/Semaphore.cpp:101-121 | a woken waiter returns as it was woken, or goes round the loop again as a new caller, with the same three outcomes; with a signal pending it leaves without its token |
| `Semaphore.SemaphoreManager.Post` | src/proc/Semaphore.cpp:124-158 | the token goes to the process that has waited longest, or to the value when nobody waits; overflow and stale ids are refused |
| `Semaphore.SemaphoreManager.Destroy` | src/proc/Semaphore.cpp:160-191 | every waiter is woken as destroyed, the slot is reset with the next generation and the id is stale |
| `Semaphore.SemaphoreManager.InterruptWait` | src/proc/Semaphore.cpp:193-207 | a signalled waiter leaves its queue, the others keep their order |
| `IntrusiveList.AddTail` | src/include/List.h:85-88 | the node becomes the last of the ring |
| `IntrusiveList.AddBetween` | src/include/List.h:160-166 | a node linked between neighbours is inserted at that place |
| `IntrusiveList.DeleteInit` | src/include/List.h:97-101 | the node leaves the ring, the others keep their order, and it is a ring of its own |
| `IntrusiveList.Delete` | src/include/List.h:90-95 | the same, leaving the node unlinked |
| `IntrusiveList.Splice` | src/include/List.h:129-136 | a whole list is inserted at the front in order, by relinking four nodes |
| `IntrusiveList.First` | src/include/List.h:28-29 | the entry read as the first is the node after the head |
| `IntrusiveList.Empty` | src/include/List.h:60-63 | true exactly for a ring of the head alone |
| `Scheduling.ProcessManager.Select` | src/proc/ProcessManager.cpp:1031-1075 | picks the first process of best priority after the one picked last, in round-robin order |
| `Scheduling.BestRunsSoon` | src/proc/ProcessManager.cpp:1031-1075 | a process that stays runnable at the best priority is chosen within NPROC choices |
| `ExtentMap.Alloc` | src/mm/Allocator.cpp:11-40 | the lowest extent with room is cut from its front; 0 exactly when no run of that many free units exists |
| `ExtentMap.Free` | src/mm/Allocator.cpp:42-104 | the block is joined with the neighbours it touches, and the array stays packed and zero-terminated |
| `ExtentMap.CutFree` | src/mm/Allocator.cpp:17-37 | exactly the units handed out stop being free |
| `ExtentMap.PutFree` | src/mm/Allocator.cpp:54-102 | exactly the units given back become free |
| `ExtentMap.PutCanonical` | src/mm/Allocator.cpp:54-102 | after any free the extents are sorted, disjoint and nowhere adjacent |
| `ExtentMap.FitsIffRun` | src/mm/Allocator.cpp:17-39 | some extent has room exactly when that many units in a row are free |
| `KernelHeap.KernelAllocator.KernelHeapAllocate` | src/mm/New.cpp:32-61 | up to 2^32 - 16 bytes: an 8-aligned block with room for the request, the front of the lowest free extent that has it, or 0 exactly when no free run is left; live blocks and free extents always tile the heap |
| `KernelHeap.KernelAllocator.KernelHeapRelease` | src/mm/New.cpp:63-88 | exactly the block's units become free; a block released twice is refused |
| `KernelHeap.TotalSizeFits` | src/mm/New.cpp:27-49 | a block has room for its request exactly up to 2^32 - 16 bytes |
| `KernelHeap.TakeTiled` | src/mm/KernelAllocator.cpp:26-29 | handing out the front of an extent keeps every unit of the heap in exactly one free extent or live block |
| `KernelHeap.GiveTiled` | src/mm/KernelAllocator.cpp:31-34 | so does taking a block back |
| `PageBitmap.PageManager.AllocatePages` | src/mm/PageManager.cpp:70-101 | takes the lowest run of free pages, and fails exactly when there is none or nothing is asked for |
| `PageBitmap.PageManager.FreePages` | src/mm/PageManager.cpp:103-124 | frees exactly a run of the pool, and ignores any other argument |
| `PageBitmap.PageManager.FindRun` | src/mm/PageManager.cpp:77-100 | the running length of free pages finds the lowest run long enough |
| `AddressSpace.MemoryDescriptor.ConfigureExecutableLayout` | src/proc/MemoryDescriptor.cpp:825-1040 | succeeds exactly when the segments fit in order and the data segment is empty or has plain data; then code, data, heap and stack are in order without overlap, and each page has a fresh record |
| `AddressSpace.MemoryDescriptor.AddData` | src/proc/MemoryDescriptor.cpp:910-1005 | the data regions tile the data segment, each address in a region of its own section, and where read-only data and bss overlap in that of the one that starts first |
| `AddressSpace.TilesExactly` | src/proc/MemoryDescriptor.cpp:938-1005 | in such a tiling every address of the segment is in exactly one region |
| `AddressSpace.ClipIsPages` | src/proc/MemoryDescriptor.cpp:850-895 | the read-only and bss ranges are exactly the pages of the data segment from the section's first page up to its end |
| `AddressSpace.PageReaches` | src/proc/MemoryDescriptor.cpp:850-895 | that is, without wrap-around, the pages that hold a byte of the section |
| `AddressSpace.SegmentsCovered` | src/proc/MemoryDescriptor.cpp:843-845 | code, data and stack have every byte asked for and less than a page more |
| `AddressSpace.LayoutOrdered` | src/proc/MemoryDescriptor.cpp:1007-1040 | when the finished layout passes CheckUserSpace |
| `AddressSpace.MemoryDescriptor.SetHeapBreak` | src/proc/MemoryDescriptor.cpp:1747-1823 | exactly when it succeeds; regions stay ordered, pages that stay keep their records, new ones are reserved |
| `AddressSpace.MemoryDescriptor.GrowStackByPage` | src/proc/MemoryDescriptor.cpp:1825-1859 | one page is added below, every other address keeps its record although the records are stored in reverse; the regions stay disjoint exactly when a page of room was left above the heap |
| `AddressSpace.MemoryDescriptor.FindOrGrow` | src/proc/MemoryDescriptor.cpp:1085-1117 | a fault finds its region; the stack grows, by one page, exactly for an unmapped address between esp - 8 and its start, with more than a page above the heap and memory for the record, and the fault is then served if it is in that page |
| `AddressSpace.StackMoves` | src/proc/MemoryDescriptor.cpp:345-375 | counting records from the stack's end keeps each page's record in place as the stack grows |
| `AddressSpace.MemoryDescriptor.FindRegion` | src/proc/MemoryDescriptor.cpp:2067-2078 | finds the only region of an address, or there is none |

## Left out

- The 0# page table shared by all processes, the runtime page, shared text pages and `BACKING_ANON` pages: user pages start at 4 MiB.
- Contents of an executable's pages once one of them has been exposed, beyond "the same as before or the file's": see the finding above. In `PagingRuns` a copy-on-write fault and the store it is for are one operation.
- `Fork` is the two clone calls one after the other; the u-page allocation between them, and its reclaim, is not modelled, and a saturated counter (a panic in `NewProc`) ends a run.
- `PagingRuns.Run`: a fork into a live process, or of a parent with an unmarked swapped page, is outside the run; `ForkDone` says what happens there.
- `PagingLosses.ForkLeaks`: after the fork the swap-ins and the child's store are the pure steps the kernel performs (`LeakRun`), since its methods ask for the invariant the fork has broken.
- I/O errors, and `new` returning NULL inside paging and layout.
- Preemption inside a fault or a reclaim: each is one step.
- Physical addresses: frames are numbered from the start of the user pool, frame 0 being the zero page; reverse-map lists are sequences (the links are in `IntrusiveList`).
- `FileBlocks.FileSystem.Alloc`: not entered again after ENOSPC, where the code would read `s_free[-1]` (see the finding above); the `s_flock` sleep and `BadBlock`, which never objects, are left out.
- Inode fields other than `i_addr` and `i_size`, read-ahead block numbers, device files, inode allocation, directories and permissions.
- The file-system model takes a buffer to be the block it caches; `BufferRuns` justifies that on its own model of the disk.
- Buffer cache: B_ERROR and retries, block numbers past the end of the disk, more than one block device (the kernel has one), and the lookup of the device table.
- Pipe: a disk that fills up during `WriteP`, the allocation of the inode and files in `Pipe`, a second descriptor of one process for the same end (so `f_count` counts processes), and what becomes of the inode after the last close of both ends.
- `ExtentMap.Free`: not called for a block apart from every free extent when the array has no entry left but its end mark, where the code would write past the array.
- `KernelHeap.KernelAllocator.KernelHeapRelease`: not called then either, nor on a dead pointer in front of which memory happens to look like a block header.
- Semaphore: `aRetU` is a return with outcome Interrupted; the set of asleep processes stands for their scheduling state.
- `PageBitmap` keeps one entry per page instead of 32 to a word.
- `IntrusiveList` leaves out `Replace` and `Move`, which combine the operations shown.
- Interrupt masking, DMA and controller registers, TLB flushes, context switches, the shell and user programs, exec's argument copying and the executable formats.
