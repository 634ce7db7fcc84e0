# Verification of the xv6 storage stack, memory, pipes, disk driver, shell and heap

This project models the parts of xv6 for RISC-V (with copy-on-write fork) that are hardest to get right, and proves
what the rest of the system relies on. `dafny verify dfyconfig.toml` checks all of it.

| file | what it models |
|---|---|
| `Blocks.dfy` | disk blocks and their view as little-endian words |
| `StorageMachine.dfy` | buffer cache, log and disk as one machine with crashes; it refines a disk with atomic transactions |
| `LogCode.dfy` | the loops of `kernel/log.c`; everything they do is a recorded run of that machine |
| `Reservation.dfy` | how `begin_op`, `log_write` and `end_op` share out the log |
| `BufferCache.dfy` | the LRU list of `kernel/bio.c` and its linked form |
| `FsLayout.dfy`, `FileSystem.dfy` | free bitmap, inodes, direct and indirect blocks, file contents as byte sequences |
| `CrashConsistency.dfy` | the file system on that machine: what a crash leaves of the files |
| `CowMemory.dfy` | physical pages, reference counts and address spaces shared copy-on-write, in any interleaving |
| `LostPages.dfy` | which pages that machine loses for good, and when |
| `Kalloc.dfy`, `CowCode.dfy` | `kernel/kalloc.c`, `uvmcopy`, `cowalloc`, `copyout` and `copyin` as code whose effects are recorded runs of that machine |
| `PageTable.dfy`, `FreeWalk.dfy` | the three-level page table as a tree, against a flat map |
| `Heap.dfy` | `malloc` and `free` of `user/umalloc.c` |
| `Pipe.dfy`, `PipeProtocol.dfy` | the pipe's ring, and any number of processes sleeping and waking on it |
| `Virtio.dfy`, `VirtioCode.dfy` | the virtio disk driver against a device that completes requests in any order |
| `Regex.dfy`, `Grep.dfy` | the matcher of `user/grep.c` against a language, and its buffering loop |
| `ShellGrammar.dfy`, `ShellDerivations.dfy`, `ShellParser.dfy` | the parser of `user/sh.c` against a printer and a grammar, and its lexer |

## Main results

- **Crash atomicity.** However often the machine crashes during commit and during recovery, recovery yields exactly
  the contents before the transaction or exactly those after it, and always the latter once the header is written
  (`CrashAtomicity`, `CommittedSurvives`). The cache, the log and the disk together refine one disk with a current
  and a durable content (`RunRefines`), and `commit` and `recover_from_log` as written are such runs. Nothing stays
  uncommitted: when the log is idle and no operation is open, current and durable content agree (`IdleIsDurable`).
- **Files.** `writei`, `readi` and `filewrite` act on files as on byte sequences, also when the disk fills midway;
  no block has two owners, `itrunc` frees exactly the inode's blocks, files have no holes, and one chunk of
  `filewrite` logs at most ten blocks. Whenever the machine crashes in a transaction, in its commit or in a recovery,
  a recovery and a mount find all files as before it or all files as after it (`FilesSurvive`); for a chunk of
  `filewrite` that is the file with that chunk or without it (`ChunkSurvives`), and with it once the log is idle again
  (`ChunkIsCommitted`). Neither writing nor truncating changes the rest of the inode or any other inode.
- **The buffer cache** recycles, over every run, the unreferenced buffer whose last release lies furthest back
  (`LeastRecentlyReleased`).
- **Copy-on-write.** No store of a process is ever visible to an ancestor or a stranger (`RunIsolation`); the
  allocator never hands out a page in use (`AllocatorSafety`). In every state of every run a page's count is its
  mappings plus the kernel's references plus those a failing fork forgot, and a page is lost exactly if one of two
  kinds of step lost it (`RunLost`); lost means that nothing that can still happen frees it (`LostForGood`).
- **Page tables** are a flat map, which is what the Sv39 hardware sees (`MmuSeesFlat`); `uvmfree` gives every table to `kfree` exactly once.
- **The heap's** free list stays one ordered, fully coalesced cycle, live and free blocks are disjoint and add up to
  what `sbrk` gave, and both searches end.
- **The pipe** is a queue through counter wrap-around, sleepers sleep rightly, and a reader and a writer are never
  both asleep; a write that nothing disturbs stores all its bytes, in order, before it returns (`WriteDelivers`). **The driver's** descriptors are
  always partitioned, and from a request to its return the right content has moved in the right direction, whatever
  else goes on (`RequestServed`). **The shell's** parser inverts the printer and accepts exactly the derivable commands
  (`AcceptsExactly`). **grep** shows exactly the matching lines.

## Where the code does less than it might seem

Each of these has a lemma or a contract with the exact condition and a lemma with a concrete run or input.

- `begin_op`'s reservation is enough if and only if the log has more than `LOGSIZE` blocks; `mkfs` makes it exactly
  `LOGSIZE` (`PanicFreeIff`). The size test also precedes absorption: rewriting a block that is already listed panics if
  and only if the log is full (`AbsorptionRefusedIff`), which can happen for every log that can hold an entry
  (`AbsorptionIsNotExempt`).
- The project's README says that `uvmcopy` makes the pages of parent and child copy-on-write. The code does so for
  the child only, so a store by the parent reaches the child until the child has copied the page
  (`ParentStoreReachesChild`); `StoreVisibleIff` says which stores, the process's own and the kernel's for it, are
  seen.
- A writer that is killed after storing bytes returns without a wakeup, and a reader may sleep on with bytes in the
  pipe (`ReaderLeftAsleep`); `PipeProtocol.StepKeeps` shows that this step, when a reader sleeps, is the only one.
- `morecore` passes its byte count to `sbrk` as an `int`: it arrives unchanged if and only if the request is at most
  2^31 - 32 bytes (`RequestFitsInt`, `LargestRequestWraps`).
- `grep` stops at a line that does not fit its buffer; what it shows is complete if and only if no line from there on
  matches (`CompleteIff`, `LongLineHides`).
- `cowalloc` drops its reference to the shared page without ever freeing the page: the page is lost if and only if its
  count was 1 (`CowCode.Vm.Cowalloc`, `CowallocLosesAPage`). A `uvmcopy` that fails never returns the reference that it
  took for the page at which it failed, and that page is lost too (`CowCode.Vm.Uvmcopy`, `FailedForkLosesAPage`).
  No other step loses a page (`StepLost`).

## Model

| member | source | states |
|---|---|---|
| `Blocks.SetWord` | kernel/fs.c:225-241 | a word stored in a block is read back, and every other word of the block is unchanged |
| `StorageMachine.PutHeader` | kernel/log.c:102-114 | a log header written to a block is read back as the same list of block numbers |
| `StorageMachine.HitKeeps` | kernel/bio.c:58-75 | finding a block in the cache keeps the invariant of cache, log and disk |
| `StorageMachine.MissKeeps` | kernel/bio.c:76-89 | recycling an unreferenced buffer loses no content that is not on disk |
| `StorageMachine.LoadKeeps` | kernel/bio.c:92-103 | a block read in from its home location is up to date |
| `StorageMachine.LogWriteKeeps` | kernel/log.c:214-235 | after `log_write` the block is pinned and listed, and its cached data is the current content |
| `StorageMachine.EndOpKeeps` | kernel/log.c:146-175 | when the last operation ends, every changed block has been logged, and with anything logged the log does not stay idle |
| `StorageMachine.CopyToLogKeeps` | kernel/log.c:178-191 | the log blocks written so far hold the cached contents |
| `StorageMachine.CommitHeadKeeps` | kernel/log.c:102-114 | once the header is written, the log on disk holds every listed block |
| `StorageMachine.InstallKeeps` | kernel/log.c:68-83 | installing a block makes its home copy current and drops just its pin |
| `StorageMachine.ClearHeadKeeps` | kernel/log.c:193-203 | the header is erased only when every home block is current |
| `StorageMachine.CrashKeeps` | kernel/log.c:116-123 | a crash in any state leaves a state from which recovery can start |
| `StorageMachine.ReadHeadKeeps` | kernel/log.c:86-97 | recovery starts to install exactly the blocks that the header on disk lists |
| `StorageMachine.NextKeeps` | kernel/log.c:68-235 | every step of any process, the disk or a crash keeps the invariant |
| `StorageMachine.RunKeeps` | kernel/log.c:68-235 | the invariant holds in every state of every run |
| `StorageMachine.Refines` | kernel/bio.c:58-151 | every step is a step of the atomic disk: one block updated, a commit, a fall-back to the durable content, or nothing |
| `StorageMachine.RunRefines` | kernel/log.c:68-235 | the atomic disk follows every run step by step |
| `StorageMachine.OpsCanBegin` | kernel/log.c:126-142 | with the log idle and no operation open, an operation can begin |
| `StorageMachine.OpsCanEnd` | kernel/log.c:146-175 | an operation that has logged its changes can end |
| `StorageMachine.IdleIsDurable` | kernel/log.c:146-203 | in every run from power-on, when no operation is open and the log is idle, the header is empty, the home blocks hold what was last logged and a crash loses nothing: the last `end_op` has committed |
| `StorageMachine.HeaderMeansCommitted` | kernel/log.c:116-123 | from the header's write to its erasure recovery would yield the current content |
| `StorageMachine.EmptyHeaderMeansHome` | kernel/log.c:86-97 | with an empty header the home blocks are what recovery would yield |
| `StorageMachine.UncommittedWrite` | kernel/log.c:178-191 | writes to the log's data blocks under an empty header do not show |
| `StorageMachine.ReadReturnsLastLogged` | kernel/bio.c:92-103 | in every run, a locked clean buffer holds the content last logged for its block |
| `StorageMachine.StaleBlocksArePinned` | kernel/bio.c:58-89 | in every run, a block whose home copy is out of date is in the header, cached and referenced, so `bget` cannot recycle its buffer |
| `StorageMachine.CrashAtomicity` | kernel/log.c:178-203 | from any point of commit, through any crashes and recoveries, recovery yields exactly the old or exactly the new contents, and an idle log means that the home blocks are that |
| `StorageMachine.CommittedSurvives` | kernel/log.c:193-203 | once the header write has landed, every later crash and recovery yields the new contents |
| `LogCode.BlankBoots` | mkfs/mkfs.c:108-111 | a disk with a zeroed log header is a state that the machine can start in, and recovery leaves its home blocks alone |
| `LogCode.Log.constructor` | kernel/log.c:54-65 | at boot, from any image with a well-formed log, recovery can start |
| `LogCode.Log.Bread` | kernel/bio.c:92-103 | locks the buffer of the block with its content read in, and holds one reference more, as steps of the machine |
| `LogCode.Log.Brelse` | kernel/bio.c:116-137 | unlocks the buffer and drops that one reference, as steps of the machine |
| `LogCode.Log.WriteLog` | kernel/log.c:178-191 | copies every listed block to its log slot; a crash anywhere leaves the old contents |
| `LogCode.Log.FormatHeader` | kernel/log.c:102-114 | the formatted block reads back as the in-memory header |
| `LogCode.Log.WriteHead` | kernel/log.c:102-114 | writes the in-memory header: the commit point, or the erasure |
| `LogCode.Log.InstallBlock` | kernel/log.c:72-82 | one block is copied home and, in commit, unpinned |
| `LogCode.Log.InstallTrans` | kernel/log.c:68-83 | every listed block reaches its home location; a crash anywhere leaves the new contents |
| `LogCode.Log.ParseHeader` | kernel/log.c:86-97 | the in-memory header becomes the list in the block |
| `LogCode.Log.ReadHead` | kernel/log.c:86-97 | loads the header from disk, as a step of the machine |
| `LogCode.Log.Commit` | kernel/log.c:193-203 | the whole of `commit` is a run in which a crash at any point leaves the old or the new contents; at its end the home blocks hold the new ones and every process holds the references it held |
| `LogCode.Log.RecoverFromLog` | kernel/log.c:116-123 | the whole of recovery is a run in which a crash at any point leaves what a complete recovery gives; references are as before |
| `Reservation.Keeps` | kernel/log.c:126-175 | entries plus the unused budgets of all open operations never exceed `LOGSIZE`, over each event |
| `Reservation.ReservationHolds` | kernel/log.c:126-235 | in every reachable state entries are distinct, lie inside the log area, commit excludes open operations, and an operation with budget left passes the `LOGSIZE` test |
| `Reservation.CommitMakesRoom` | kernel/log.c:126-175 | after every commit exactly three operations can be admitted at once |
| `Reservation.PanicFreeIff` | kernel/log.c:220-221 | no operation within its budget is ever refused, if and only if the log has more than `LOGSIZE` blocks |
| `Reservation.FilledIsReachable` | kernel/log.c:214-235 | three operations can fill the log up to any number of entries below `LOGSIZE` that its size allows |
| `Reservation.AbsorptionRefusedIff` | kernel/log.c:220-228 | in every reachable state, rewriting a listed block panics exactly if the entries have reached the smaller of `LOGSIZE` and the log's data blocks; otherwise it is absorbed |
| `Reservation.AbsorptionIsNotExempt` | kernel/log.c:220-228 | such a panic of an open operation is reachable exactly if the log can hold an entry |
| `Reservation.Log.constructor` | kernel/log.c:54-65 | no operation open, no block logged |
| `Reservation.Log.BeginOp` | kernel/log.c:126-142 | admits the operation exactly when no commit runs and the entries and ten blocks for each open operation and this one fit `LOGSIZE` |
| `Reservation.Log.EndOp` | kernel/log.c:146-175 | commits exactly when the last operation ends |
| `Reservation.Log.LogWrite` | kernel/log.c:214-235 | panics exactly under the two guards; otherwise absorbs a listed block or adds it once, whoever's budget it exceeds; within budgets the reservation stands |
| `BufferCache.GetKeeps` | kernel/bio.c:58-89 | `bget` keeps the list a permutation ordered by last release, and at most one buffer per block of a nonzero device |
| `BufferCache.VictimIsOldest` | kernel/bio.c:76-86 | the recycled buffer is unreferenced and no unreferenced buffer was released earlier |
| `BufferCache.OrderIsAge` | kernel/bio.c:116-137 | over every run of `bget`, `brelse`, `bpin` and `bunpin` from `binit`, the list is sorted by each buffer's last release to zero references in that run |
| `BufferCache.LeastRecentlyReleased` | kernel/bio.c:76-86 | so `bget` recycles, of the unreferenced buffers, the one whose last release is earliest, those never released first |
| `BufferCache.ReleaseKeeps` | kernel/bio.c:116-137 | the last release takes the buffer to the front, the others keeping their order, and any other leaves the list alone; one reference less, no key changed |
| `BufferCache.GetRefinesMachine` | kernel/bio.c:58-89 | what `bget` does to a device's buffers, with their data, validity, users and locks, is the step Hit or Miss of `StorageMachine` |
| `BufferCache.ReleaseRefinesMachine` | kernel/bio.c:116-137 | what `brelse` does to them after unlocking is the step Deref |
| `BufferCache.PinRefinesMachine` | kernel/bio.c:139-144 | what `bpin` does to them is what the step LogWrite does for a new entry |
| `BufferCache.UnpinRefinesMachine` | kernel/bio.c:146-151 | what `bunpin` does to them is what the step Install does after a commit |
| `BufferCache.Unlinked` | kernel/bio.c:126-127 | the two pointer stores take a buffer out of the doubly linked cycle |
| `BufferCache.Pushed` | kernel/bio.c:128-131 | the four pointer stores put a buffer at the front of the cycle |
| `BufferCache.Cache.constructor` | kernel/bio.c:36-53 | the buffers form one cycle, all unreferenced |
| `BufferCache.Cache.PushFront` | kernel/bio.c:44-52 | the pointers again form one cycle, with the buffer in front |
| `BufferCache.Cache.Bget` | kernel/bio.c:58-89 | the scans over the pointers do what `Get` does on the list |
| `BufferCache.Cache.Brelse` | kernel/bio.c:116-137 | the pointer changes do what `Release` does on the list |
| `BufferCache.Cache.Bpin` | kernel/bio.c:139-144 | one more reference, nothing else |
| `BufferCache.Cache.Bunpin` | kernel/bio.c:146-151 | one reference less, nothing else, the order included |
| `FsLayout.PutBit` | kernel/fs.c:77-79 | setting or clearing a bit of a byte changes that bit only and stays a byte |
| `FsLayout.MarkOne` | kernel/fs.c:91-105 | marking a block in the bitmap changes the state of that block and no other |
| `FsLayout.AllocKeepsSlots` | kernel/fs.c:65-88 | allocating a free block leaves every slot of every inode as it was |
| `FsLayout.LinkAddr` | kernel/fs.c:382-395 | an allocated block linked into an address slot keeps every block owned by exactly one slot |
| `FsLayout.LinkEntry` | kernel/fs.c:396-418 | the same for an entry of an indirect block |
| `FsLayout.UnlinkAddr` | kernel/fs.c:425-438 | freeing the block of a direct slot and clearing the slot keeps ownership exact |
| `FsLayout.MkfsLayout` | mkfs/mkfs.c:23-103 | the layout that mkfs computes for its constants is one that the file system's proofs accept |
| `FsLayout.PutInode` | kernel/fs.c:225-241 | an inode, with all its fields, stored in its block is read back, and the other inodes of that block are unchanged |
| `FsLayout.NewFsHealthy` | mkfs/mkfs.c:234-248 | a zeroed disk with its metadata blocks marked is a healthy file system |
| `FileSystem.GrowAddr` | kernel/fs.c:382-395 | filling an empty address slot changes no other slot of any inode and no byte of any file |
| `FileSystem.GrowEntry` | kernel/fs.c:396-418 | the same for an entry of the indirect block |
| `FileSystem.PatchSets` | kernel/fs.c:511-531 | storing into a file's block changes the bytes meant, of that file only |
| `FileSystem.WrittenContent` | kernel/fs.c:505-539 | at the end of `writei` the file is the splice of the written bytes into the old content |
| `FileSystem.OtherContent` | kernel/fs.c:505-539 | at the end of `writei` every other file is as it was |
| `FileSystem.ChargeBound` | kernel/file.c:163-194 | a write of at most three blocks' worth of bytes at any offset logs at most 4 data, 1 indirect, 4 bitmap and 1 inode block |
| `FileSystem.TruncFinishes` | kernel/fs.c:425-453 | at the end of `itrunc` the file is empty, its blocks are free and nothing else has changed |
| `FileSystem.Volume.constructor` | mkfs/mkfs.c:108-111 | a healthy file system in which every file is empty |
| `FileSystem.Volume.Balloc` | kernel/fs.c:65-88 | returns the lowest free block, marked and zeroed, never a metadata block, and changes no other block's state; 0 exactly when the disk is full |
| `FileSystem.Volume.Bmap` | kernel/fs.c:382-421 | returns the block of the slot, allocating only if it is empty; every block keeps exactly one owner; of all inodes only this one's block numbers change; 0 only when the disk is full |
| `FileSystem.Volume.Iupdate` | kernel/fs.c:225-241 | the inode on disk agrees with the inode, field by field; the other inodes of its block and all other blocks are unchanged |
| `FileSystem.Volume.Writei` | kernel/fs.c:505-539 | -1 exactly for an offset beyond the end or a file too large, without effect; else the splice of the written prefix, other files unchanged, no holes; of the inodes only this one's size and block numbers change; short only if the copy fails or the disk is full; at most ten blocks logged for a chunk |
| `FileSystem.Volume.Readi` | kernel/fs.c:471-496 | returns exactly the clipped slice of the content, and neither allocates nor logs anything |
| `FileSystem.Volume.Bfree` | kernel/fs.c:91-105 | clears the block's bit, no other bit and no other block; panics exactly for a block that is free |
| `FileSystem.Volume.FreeDirect` | kernel/fs.c:430-435 | frees exactly the blocks of the direct slots and changes nothing else of any inode |
| `FileSystem.Volume.FreeIndirect` | kernel/fs.c:437-448 | frees exactly the blocks that the indirect block lists, and the indirect block |
| `FileSystem.Volume.Itrunc` | kernel/fs.c:425-453 | never panics; frees exactly the inode's blocks, leaves every other file and its blocks alone, and changes of the inodes only this one's size and block numbers |
| `FileSystem.Volume.FileWrite` | kernel/file.c:146-201 | the file becomes the splice of the bytes written, the offset moves by as many, the result is all or -1; it falls short only for an offset beyond the end, a file too large, a copy that fails or a full disk; it makes one transaction per chunk, and each logs at most ten blocks, among them all that it changes, and leaves one chunk more in the file |
| `FileSystem.Volume.WriteTx` | kernel/file.c:173-191 | one chunk: the bytes written follow those already in the file, and the blocks logged are at most ten and all that changed |
| `CrashConsistency.MkfsLogFits` | mkfs/mkfs.c:92-103 | mkfs puts the log below the inodes and the bitmap, as the next lemmas need |
| `CrashConsistency.MountFinds` | kernel/fs.c:293-316 | reading the inodes back from the home blocks finds every inode and every file of the file system they are from, whatever the log area holds |
| `CrashConsistency.DuringTransaction` | kernel/log.c:126-203 | in every state of a run in which some operations share a transaction, a crash falls back to the old contents until the last has ended, and then to the old or the new ones |
| `CrashConsistency.FilesSurvive` | kernel/log.c:126-203 | so, in every such state, crash, recovery and mount find every file as before the transaction or every file as after it |
| `CrashConsistency.FilesAreCommitted` | kernel/log.c:146-203 | without a crash, once the last operation has ended and the log is idle again, a later crash and recovery find every file as after the transaction |
| `CrashConsistency.ChunkSurvives` | kernel/file.c:163-194 | for the transaction of one chunk of `filewrite`, the file is found with that chunk or without it, and all others as they were |
| `CrashConsistency.ChunkIsCommitted` | kernel/file.c:163-194 | the same for one chunk of `filewrite`: it is then there to stay |
| `CowMemory.KallocKeeps` | kernel/kalloc.c:148-174 | the page taken is mapped by nobody and held by nobody |
| `CowMemory.KfreeDecKeeps` | kernel/kalloc.c:111-143 | dropping a reference keeps each count equal to the mappings plus the kernel's references plus the forgotten ones |
| `CowMemory.CowKeeps` | kernel/trap.c:57-77 | the same over the copy made by `cowalloc` |
| `CowMemory.ShareInv` | kernel/vm.c:312-357 | sharing a page with the child keeps ownership: only the owner's mapping is not PTE_C |
| `CowMemory.NextKeeps` | kernel/vm.c:171-401 | every step of allocator, page tables and stores keeps the whole invariant |
| `CowMemory.RunKeeps` | kernel/vm.c:171-401 | the invariant holds in every state of every run |
| `CowMemory.AllocatorSafety` | kernel/kalloc.c:111-174 | in every run free pages are distinct, with count 0, unmapped and unheld, and a mapped page's count covers all its mappings and holders |
| `CowMemory.OneOwner` | kernel/vm.c:312-357 | in every run a page has at most one mapping without PTE_C, and every other mapping is a read-only one of a descendant |
| `CowMemory.Isolation` | kernel/vm.c:312-401 | a step changes what a space sees only if it is its own or a store by an ancestor |
| `CowMemory.RunIsolation` | kernel/vm.c:312-401 | the same over whole runs: no store of a descendant or a stranger is ever visible |
| `CowMemory.CowIsInvisible` | kernel/trap.c:57-77 | the copy changes what nobody sees, and the page is then writable |
| `CowMemory.StoreVisibleIff` | kernel/vm.c:326-339 | another space sees a store, the user's or the kernel's through `copyout`, exactly if it maps the same frame; it is then a descendant with a PTE_C mapping |
| `CowMemory.ParentStoreReachesChild` | kernel/vm.c:326-339 | a run in which the parent's store after fork changes what the child reads |
| `LostPages.PageFate` | kernel/kalloc.c:111-174 | every page's count is its mappings, the kernel's references and the forgotten ones; every page is free, in use or lost, and a free page neither of the others |
| `LostPages.StepLost` | kernel/trap.c:57-77 | a step loses a page exactly if it is a `krefdecr` that finds the count at 1 or a `uvmcopy` that forgets its reference; no step finds a lost page again |
| `LostPages.RunLost` | kernel/vm.c:326-356 | over every run from boot, a page is lost exactly if one of those steps lost it |
| `LostPages.LostForGood` | kernel/kalloc.c:53-73 | a page is lost exactly if no continuation of the run puts it on the free list |
| `LostPages.CowallocLosesAPage` | kernel/trap.c:57-77 | a run in which parent and child share a page, the parent exits and the child's copy loses it |
| `LostPages.FailedForkLosesAPage` | kernel/vm.c:340-356 | a run in which a fork without memory loses a page that the parent still maps |
| `KallocCode.Kmem.constructor` | kernel/kalloc.c:82-105 | every whole page between the kernel's end and PHYSTOP is free, each once |
| `KallocCode.Kmem.Kalloc` | kernel/kalloc.c:148-174 | a page that nobody maps or holds; none exactly if the free list is empty |
| `KallocCode.Kmem.Kfree` | kernel/kalloc.c:111-143 | panics exactly for a bad address or a page without references; otherwise the machine's steps, the last reference putting the page on the free list |
| `CowCode.Vm.constructor` | kernel/kalloc.c:82-105 | memory with every page free and no address space |
| `CowCode.Vm.Uvmcreate` | kernel/vm.c:198-207 | a new, empty address space on a page taken from the free list, recorded as the parent's child if it is forked; none exactly if no page is free |
| `CowCode.Vm.MapZeroed` | kernel/vm.c:226-253 | one more page: the first free frame, every byte zero, with count 1, not PTE_C; fails exactly when there is none or none for page tables, and then mappings, counts and free list are as before |
| `CowCode.Vm.Cowalloc` | kernel/trap.c:30-80 | fails, without effect, exactly for page 0, a bad page or lack of memory; a page that is not PTE_C stays as it is; of a PTE_C page it makes a copy in a page taken from the free list, writable, with count 1 and mapped nowhere else, and the old frame's count drops by one; the kernel holds no more references than before, no space sees different contents, and the old frame is lost exactly if its count was 1 |
| `CowCode.TableInjective` | kernel/vm.c:312-357 | an address space maps a frame at most once |
| `CowCode.Vm.Undo` | kernel/vm.c:353-356 | the error path unmaps all shared pages and restores their counts |
| `CowCode.Vm.Uvmcopy` | kernel/vm.c:312-357 | success, failure and panic each under their exact condition; on success the child maps the parent's frames, PTE_C and read-only, each counted once more, and no page is lost; on failure nothing has changed but the count of the failing page, and exactly that page is lost |
| `CowCode.Vm.Copyout` | kernel/vm.c:374-401 | the bytes arrive at the addresses meant, nothing else that the space can read changes, no reference is kept, and it stops short only where `cowalloc` fails |
| `CowCode.Vm.Copyin` | kernel/vm.c:406-426 | succeeds exactly if every page is found, and then returns the user's bytes |
| `CowCode.Vm.ThereAndBack` | kernel/vm.c:374-426 | after a `copyout` that succeeded, `copyin` succeeds and returns what was written |
| `PageTable.DistinctPlaces` | kernel/riscv.h:357-359 | different pages differ in their leaf table or in their index there |
| `PageTable.HungFlat` | kernel/vm.c:96-100 | hanging a new table into the tree keeps it a tree and maps nothing |
| `PageTable.FlatSet` | kernel/vm.c:143-166 | writing a leaf entry changes one page of the flat map |
| `PageTable.MmuSeesFlat` | kernel/riscv.h:357-359 | the hardware's walk from the root, nine bits of the page number at a time, finds exactly the flat map |
| `PageTable.PagesTouched` | kernel/vm.c:143-166 | the pages of a range are those from its first byte's to its last byte's |
| `PageTable.Vm.constructor` | kernel/vm.c:198-207 | a tree of one table that maps nothing |
| `PageTable.Vm.Walk` | kernel/vm.c:83-105 | finds the entry of the page; adding tables changes no mapping; fails only when a table is missing and, with alloc, memory is out; panics exactly for an address out of range |
| `PageTable.Vm.Mappages` | kernel/vm.c:143-166 | maps exactly the pages of the range to consecutive frames with exactly the permissions asked for; panics exactly for size 0 or at a page that is mapped already or out of range; fails only when memory is out |
| `PageTable.Vm.Uvmunmap` | kernel/vm.c:171-194 | unmaps exactly the pages named and frees their frames in order; panics exactly if one is not mapped, or has no bit but PTE_V, or is out of range, or the address is not aligned |
| `PageTable.Vm.Uvmdealloc` | kernel/vm.c:259-272 | unmaps and frees exactly the pages between the two sizes |
| `PageTable.Vm.Uvmalloc` | kernel/vm.c:226-253 | on success maps a frame of its own, taken from the allocator, for each new page, with the permissions asked for and readable by the user; fails only when the allocator is empty, and then the mappings are exactly as before and every frame taken has been freed; panics only at a page mapped already or out of range |
| `FreeWalk.PostOrderOnce` | kernel/vm.c:276-295 | no table is visited twice |
| `FreeWalk.InPostOrder` | kernel/vm.c:276-295 | exactly the tables from n down are visited |
| `FreeWalk.EveryTableOnce` | kernel/vm.c:276-295 | from the root, every page of the tree is visited exactly once |
| `FreeWalk.Freewalk` | kernel/vm.c:276-295 | terminates; panics exactly if a mapping is left; else frees the tables from n down in post-order and touches no other page |
| `FreeWalk.Uvmfree` | kernel/vm.c:299-304 | succeeds exactly when the pages below sz and no others are mapped; then each frame is freed once per mapping and each table once |
| `Heap.InsertedOrdered` | user/umalloc.c:33-42 | inserting a freed block keeps the list ordered with no two free blocks touching |
| `Heap.InsertedUnits` | user/umalloc.c:33-42 | inserting and merging loses no units |
| `Heap.InsertedJoins` | user/umalloc.c:33-42 | after inserting, the free bytes are those that were free and those of the block |
| `Heap.CarvedJoins` | user/umalloc.c:75-82 | after carving, they are those that were free without those handed out |
| `Heap.InsertedLinked` | user/umalloc.c:33-42 | the header stores of `free` leave one cycle in address order |
| `Heap.CarvedLinked` | user/umalloc.c:75-82 | the header stores of `malloc` leave the rest of the cycle linked and the block headed with its size |
| `Heap.FreeKeeps` | user/umalloc.c:24-44 | `free` keeps blocks disjoint, the list coalesced and the total equal to what `sbrk` gave |
| `Heap.TakeKeeps` | user/umalloc.c:75-82 | so does `malloc` |
| `Heap.GrowKeeps` | user/umalloc.c:46-61 | so does memory from `sbrk` |
| `Heap.FreeUndoesMalloc` | user/umalloc.c:24-90 | freeing what has just been handed out restores the free list exactly |
| `Heap.RequestFitsInt` | user/umalloc.c:52-54 | `sbrk` gets the byte count meant exactly for requests up to 2^31 - 32 bytes |
| `Heap.LargestRequestWraps` | user/umalloc.c:52-54 | the largest request asks `sbrk` for 16 bytes |
| `Heap.Arena.constructor` | user/umalloc.c:21-22 | nothing handed out, nothing free |
| `Heap.Arena.FindPlace` | user/umalloc.c:30-32 | the search ends at the free block just below the address |
| `Heap.Arena.Free` | user/umalloc.c:24-44 | the block joins the free list, merged with the free blocks it touches; the free bytes are those that were free and the block's; all other blocks stay |
| `Heap.Arena.Morecore` | user/umalloc.c:46-61 | the units got from `sbrk` become free, in one block with at least as many as asked for |
| `Heap.Arena.Take` | user/umalloc.c:75-84 | the last units of the block are handed out |
| `Heap.Arena.Malloc` | user/umalloc.c:63-90 | terminates; fails exactly if no free block is large enough and `sbrk` refuses; calls `sbrk` only if no free block is large enough, for at least 4096 units; hands out the units asked for, and what is free then is what was free or came from `sbrk`, without them |
| `Pipe.Counters` | kernel/pipe.c:88-95 | 32-bit wrap-around changes neither position in the ring nor the tests for full and empty |
| `Pipe.PutRing` | kernel/pipe.c:95-96 | a byte stored is the last of the stream and no byte in the ring is overwritten |
| `Pipe.TakeRing` | kernel/pipe.c:121-127 | the byte taken is the oldest one |
| `Pipe.Ends.constructor` | kernel/pipe.c:33-36 | an empty pipe, both ends open |
| `Pipe.Ends.Write` | kernel/pipe.c:76-103 | the bytes stored are the first of the source, in order, behind all others; it finishes only with all stored or where `copyin` fails, sleeps exactly with bytes left, the read end open, the ring full and no kill seen, and returns -1 exactly with bytes left and the read end closed or a kill seen |
| `Pipe.Ends.Read` | kernel/pipe.c:105-132 | sleeps exactly if the pipe is empty, its write end open and no kill seen; else delivers the oldest bytes in order, as many as asked for or all there are, up to a failing `copyout`, whose byte is lost |
| `PipeProtocol.StepKeeps` | kernel/pipe.c:58-132 | over every step a sleeping writer means a full pipe with its read end open; a sleeping reader means an empty pipe with its write end open, unless and only unless the step is a killed writer's return after storing bytes while a reader sleeps |
| `PipeProtocol.RunKeeps` | kernel/pipe.c:58-132 | the same over all runs; in all of them, the killed writer's return included, a writer and a reader are never both asleep, and the pipe holds at most 512 bytes, exactly those stored and not removed |
| `PipeProtocol.WriterReturns` | kernel/pipe.c:76-103 | a writer returns only with all its bytes stored, the read end closed, killed, or after a failing `copyin`; it sleeps exactly when it leaves the pipe full with bytes left, and has left exactly those not stored |
| `PipeProtocol.ReaderReturns` | kernel/pipe.c:105-132 | a reader sleeps exactly on an empty pipe with its write end open; else it removes as many bytes as asked for or all |
| `PipeProtocol.WriteDelivers` | kernel/pipe.c:76-103 | over every run of any processes, the bytes of an undisturbed write are those it has stored so far followed by those it has left; when it has returned, all are stored, in order |
| `PipeProtocol.ReaderLeftAsleep` | kernel/pipe.c:84-87 | a run after which a reader sleeps with a byte in the pipe |
| `Virtio.Slots` | kernel/virtio_disk.c:272-277 | 16-bit wrap-around of the ring indices changes no slot and no comparison |
| `Virtio.FormatKeeps` | kernel/virtio_disk.c:216-272 | formatting a request on three free descriptors keeps the invariant |
| `Virtio.CompleteKeeps` | kernel/virtio_disk.c:294-327 | so does a completion by the device, of any request that it has |
| `Virtio.SeeKeeps` | kernel/virtio_disk.c:312-324 | so does one round of the interrupt handler |
| `Virtio.FinishKeeps` | kernel/virtio_disk.c:284-292 | so does freeing the chain |
| `Virtio.StepInv` | kernel/virtio_disk.c:216-327 | so does every step of driver and device |
| `Virtio.RunKeeps` | kernel/virtio_disk.c:216-327 | over every interleaving the descriptors are the free ones and disjoint chains of three, and no buffer is in two requests |
| `Virtio.FinishBalanced` | kernel/virtio_disk.c:185-197 | a finished request gives back exactly three descriptors |
| `Virtio.DecodesOwn` | kernel/virtio_disk.c:235-269 | what the device finds in memory is the request as it was made |
| `Virtio.NoOverrun` | kernel/virtio_disk.c:271-277 | the slot of the available ring that the driver writes is none that the device has yet to read |
| `Virtio.InterruptSafe` | kernel/virtio_disk.c:312-324 | the handler finds a completion exactly when there is one, does not panic, and clears the flag of its buffer and no other |
| `Virtio.CompletionTransfers` | kernel/virtio_disk.c:235-269 | a completion moves the request's content between its buffer and its block, in its direction, and changes nothing else |
| `Virtio.ReturnsTransferred` | kernel/virtio_disk.c:284-292 | when `virtio_disk_rw` returns, buffer and block hold the content of the side that was to be read |
| `Virtio.RequestServed` | kernel/virtio_disk.c:216-292 | over every interleaving with other requests and the device, from the formatting of a request to its buffer's flag being clear: a write has brought the buffer's content at the request to the block, a read the block's content at the request to the buffer |
| `VirtioCode.Disk.constructor` | kernel/virtio_disk.c:120-146 | the invariant holds with every descriptor free |
| `VirtioCode.Disk.AllocDesc` | kernel/virtio_disk.c:156-166 | takes the lowest free descriptor, or returns -1 exactly if there is none |
| `VirtioCode.Disk.FreeDesc` | kernel/virtio_disk.c:169-182 | panics exactly for a bad index or a free descriptor |
| `VirtioCode.Disk.FreeChain` | kernel/virtio_disk.c:185-197 | ends for any content of the table; frees exactly the three of a proper chain |
| `VirtioCode.Disk.Alloc3Desc` | kernel/virtio_disk.c:201-213 | takes the three lowest free descriptors, or leaves all of them free exactly if there are fewer |
| `VirtioCode.Disk.StartRw` | kernel/virtio_disk.c:216-281 | sleeps exactly if fewer than three are free; else the request is formatted and published as the machine's steps say |
| `VirtioCode.Disk.Intr` | kernel/virtio_disk.c:294-327 | every completion is seen, and exactly the flags of those requests' buffers are cleared |
| `VirtioCode.ClearedAt` | kernel/virtio_disk.c:312-324 | a flag ends cleared exactly if it was clear or its buffer's request was completed |
| `VirtioCode.Disk.EndRw` | kernel/virtio_disk.c:288-289 | the chain is freed as the machine's step says |
| `Regex.HereStar` | user/grep.c:97-105 | a starred character and the rest match exactly if the rest matches after some run of accepted characters |
| `Regex.MatchHere` | user/grep.c:83-95 | true exactly if some stretch from the position on is in the language of the pattern |
| `Regex.MatchStar` | user/grep.c:97-105 | the same for a starred character followed by a pattern |
| `Regex.Match` | user/grep.c:71-81 | true exactly if some substring is in the language of the pattern, or some prefix after `^` |
| `Grep.ShowLines` | user/grep.c:20-28 | the terminated lines in the buffer are shown if they match |
| `Grep.Round` | user/grep.c:17-33 | one delivery of `read` shows what it completes and keeps the rest |
| `Grep.Grep` | user/grep.c:10-34 | the output is the matching lines up to one that does not fit, whatever portions `read` delivers |
| `Grep.CompleteIff` | user/grep.c:10-34 | no matching line is left out exactly if no line from the first that does not fit on matches |
| `Grep.LinesExactly` | user/grep.c:20-28 | the lines of an input are the one way to cut it behind each of its newlines |
| `Grep.ShowSelects` | user/grep.c:20-28 | what is shown is exactly the matching lines, each once, in order, with its newline |
| `Grep.LongLineHides` | user/grep.c:17-17 | of an input whose first line has 1023 characters or more, the second line is not shown although it matches |
| `Grep.AllFit` | user/grep.c:17-17 | all lines are within reach exactly if each fits the buffer with its newline |
| `ShellGrammar.LineBack` | user/sh.c:345-360 | `parseline` reads a printed command back and stops behind it |
| `ShellGrammar.RoundTrip` | user/sh.c:328-447 | every command within the argument limit is read back from its printed tokens, with nothing left over |
| `ShellGrammar.Image` | user/sh.c:328-447 | the parser returns exactly the commands within the limit |
| `ShellDerivations.AcceptsExactly` | user/sh.c:328-447 | the parser returns a command exactly if the tokens are derivable in the grammar with that meaning |
| `ShellDerivations.PanicsExactly` | user/sh.c:328-447 | it panics exactly if they have no derivation: leftovers, a missing parenthesis or file, a stray symbol, too many words |
| `ShellDerivations.Unambiguous` | user/sh.c:328-447 | no token list has two meanings |
| `ShellParser.RenderToks` | user/sh.c:266-309 | tokens printed with any white space between them are read as those tokens |
| `ShellParser.ToksExactly` | user/sh.c:266-309 | a string has exactly the tokens that it is made of, in order, separated by white space at least where two would run together |
| `ShellParser.TypedRoundTrip` | user/sh.c:266-447 | every command that can be typed is read back from its printed text, whatever the white space |
| `ShellParser.GetToken` | user/sh.c:266-309 | delivers the next token and its place, and moves behind it; 0 exactly at the end |
| `ShellParser.Peek` | user/sh.c:311-321 | says whether the next token is one of those asked for, and consumes none |
| `ShellParser.Redirs` | user/sh.c:375-398 | collects the redirections in order; panics exactly if a file name is missing |
| `ShellParser.Simple` | user/sh.c:424-447 | the words and redirections of a simple command, or the panic that applies |
| `ShellParser.ReadExec` | user/sh.c:416-447 | computes the grammar's rule on the tokens from the cursor on, or the same panic |
| `ShellParser.ReadBlock` | user/sh.c:400-414 | the same for a block in parentheses |
| `ShellParser.ReadPipe` | user/sh.c:362-373 | the same for a pipeline |
| `ShellParser.ReadLine` | user/sh.c:345-360 | the same for a line |
| `ShellParser.ReadCmd` | user/sh.c:328-340 | the same for a whole command, with leftovers refused |
| `ShellParser.Nulterminate` | user/sh.c:450-494 | writes a NUL at the end of every token of the command and nowhere else |
| `ShellParser.TokenReads` | user/sh.c:450-494 | no token ends inside another, so each string reads as its token |
| `ShellParser.ParseCommand` | user/sh.c:328-343 | the command of the grammar, and afterwards every argument and file name in the buffer reads as exactly its token |

## Left out

- Interleaving inside one locked section: a section that holds a spin lock is one step. Memory ordering, TLB fences and interrupts are not modelled.
- Sleep-locks are part of `StorageMachine` but not of the class `BufferCache.Cache`, whose methods are called one at a time; `StorageMachine` in turn does not bound the number of buffers.
- LogCode.Log.Commit: is the run of one process alone; runs in which others use the cache meanwhile are covered by the lemmas of `StorageMachine`, not by this method.
- LogCode.Log.RecoverFromLog: the same.
- LogCode.Log.Bread: requires that no process holds the buffer's sleep-lock; waiting for it is the step Acquire of `StorageMachine`, which is then not enabled.
- Disk failures other than a crash between two block writes; blocks are written atomically and in order.
- FileSystem.Volume.Writei: the copy from the caller is all or nothing for each block; the case in which `either_copyin` fails after changing part of a buffer is not modelled. `avail` says for how many bytes the copy works.
- FileSystem.Volume.Readi: `room` says for how many bytes the copy to the caller works.
- FileSystem.Volume.FileWrite: devices and pipes, and a negative count, are not modelled.
- CrashConsistency.FilesSurvive: takes the blocks that the operations of a transaction log as those that `FileSystem` says they log; the calls of `FileSystem` are not themselves steps of `StorageMachine`.
- FsLayout.NewFsHealthy: every file is empty; the root directory and the files that mkfs puts there are not modelled.
- FileSystem.Volume.constructor: the same.
- Inode allocation, link counts, directories and path names.
- CowCode.Vm.MapZeroed: `tables` says whether `mappages` finds memory for page tables.
- CowCode.Vm.Uvmcopy: `memory` says for how many pages `mappages` finds memory; the page-table pages themselves are modelled in `PageTable`.
- PageTable.Vm.Uvmunmap: requires that the end of the range does not overflow 64 bits; an entry counts as gone from the start of its round on. A PTE is a record of the bits that the code reads or writes and the page number, not a 64-bit word; PTE_G, PTE_A and PTE_D are left out.
- PageTable.Vm.Uvmalloc: requires a new size that does not overflow 64 bits when rounded up.
- PageTable.Vm.Mappages: requires that the end of the range does not overflow 64 bits.
- FreeWalk.Freewalk: requires that leaf entries have one of PTE_R, PTE_W and PTE_X, since the code would take any other for a table.
- FreeWalk.Uvmfree: the same.
- Heap.Arena.Malloc: requires, where `sbrk` grants the memory, a request that fits `sbrk`'s int; see `RequestFitsInt`. The 32-bit size field cannot overflow while memory is below 64 GB.
- Heap.Arena.Morecore: the same.
- Heap.Arena.Free: requires a pointer that `malloc` returned and that has not been freed since.
- Pipe.Ends.Write: when killed() is seen and when `copyin` fails are parameters; the same for `Pipe.Ends.Read`.
- PipeProtocol.StepKeeps: closing an end requires that no process is using it, which the reference counts of open files give. Freeing the pipe's page is not modelled.
- Virtio.InterruptSafe: the device reports success; an error status is a panic in the driver.
- VirtioCode.Disk.StartRw: waiting for descriptors and for the completion is left to the caller, and so is the wakeup in `free_desc`.
- Grep.Grep: input without NUL bytes; an error of `read` counts as its end.
- ShellParser.ReadExec: arguments and redirections are collected and the tree is built at the end, where the code fills the argument array of a node that redirections already wrap.
- Running commands (`runcmd`), the schedulers, system call plumbing, sigalarm and strace, console and UART, `exec`, `mkfs`, boot and trap entry: mostly hardware or easy members.
