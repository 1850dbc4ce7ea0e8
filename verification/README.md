# A verified model of an xv6 kernel for RISC-V

This project models the core of an xv6 teaching kernel, extended with CPU budgets, an eco mode and
a hard CPU limit, together with its user-level allocator, shell parser and `grep` matcher, and
proves what those parts are for. `dafny verify dfyconfig.toml` checks all of it.

The model is in eight parts.

- **Crash-safe storage.** `Blocks`, `LogSpec`, `LogSystem`: the redo log as a sequence of atomic
  block writes, with a crash allowed between any two of them, also during recovery, and any
  interleaving of operations. `Bio`, `CacheSpec`, `Log`: the buffer cache with its linked ring and
  the log code on top of it, proved to write exactly those sequences and to behave as one plain disk.
  `CacheUsers`: any number of processes at that cache, sleeping for each other's buffers.
- **Files.** `Mkfs`, `FsLayout`, `FsSpec`, `Fs`, `FsRun`, `File`, `FileCrash`: bitmap, inodes, direct
  and indirect blocks, byte by byte; allocation, truncation, reading, writing, runs of these on many
  files, the cutting of a write into transactions, and what a crash in the middle of one leaves.
- **Memory.** `PageTable`, `PageSpec`, `Vm`, `UserMemory`: Sv39 tables in physical memory, the page
  allocator, and the memory of processes over whole runs.
- **The user allocator.** `Umalloc`: the circular free list of `malloc` and `free`.
- **Sleeping, waking and process families.** `SleepLock`, `Channels`, `Sleepers`, `Family`,
  `Lineage`: state machines with one step for each stretch of code under a spinlock. `SleepProgress`,
  `ChannelProgress`, `FamilyProgress`: from every state they reach, what is going on can be ended.
  `Pipe`: the ring of bytes between writers and readers.
- **CPU throttling.** `Throttle`: the scheduler's decision, the clock and tick charging.
- **The virtio disk driver.** `VirtioSpec`, `VirtioHistory`, `Virtio`: driver and device over shared
  rings, and the history of the requests carried out.
- **Two languages.** `ShellSpec`, `ShellGrammar`, `ShellProof`, `Shell`: the shell's parser and the
  language it accepts. `Grep`: the matcher.

Code that the source runs alone is a class whose methods change its fields, proved against functions
of the old state. Code whose point is concurrency is a state machine; a theorem about it holds for
every sequence of enabled steps. What such a machine records of its own past is tied to the list of
steps by a separate account: `LogSystem.RunIsLedger`, `Lineage.StatusFromExit`, `Throttle.KilledIff`,
`SleepLock.HeldIffCalled`.

## What the proofs found

- A commit needs a spare buffer, and NBUF equals LOGBLOCKS: with 30 logged blocks all 30 buffers are
  pinned and `commit` panics before its first write. `Log.Log.Commit` succeeds exactly when fewer
  than NBUF blocks are logged, and `Log.FullLogPanics` gets there from boot on every disk with room.
- `log_write` tests for a full log before it looks for the block in the log, so a write that needs
  no new slot panics too. `LogSystem.LogWritePanicsIffFull` gives the exact condition and
  `LogSystem.AbsorbedWriteCanPanic` a run that gets there.
- The scheduler subtracts clock readings without sign. A reading older than the window's start
  therefore ends the window. `Throttle.WindowTestIsRight` says that the test is right exactly when
  the reading is not older, `Throttle.StaleReadingBreaksBound` is a run of two CPUs that exceeds a
  budget, and `Throttle.ChargesBound` says how much each such reading can cost.
- A kill that falls between the last look of `wait` at `killed` and its falling asleep does not wake
  the process. `Family.KilledAsleepIffRaced`: that is the only way to sleep in `wait` after a kill;
  `Family.KillCanMissWaiter` is a run in which it happens.
- `malloc` hands `sbrk` a byte count cut to a signed 32-bit int. `Umalloc.RequestIsExact`: the
  kernel is asked for the memory that the new header claims exactly for requests of at most
  2^31 - 32 bytes; the largest request asks for 16 bytes (`Umalloc.LargestRequest`).
- A writer to a pipe that is killed after it put the first bytes into an empty pipe returns without
  waking the readers. `Sleepers.PipePaysIff`: it is the one stretch of the pipe code that makes a
  sleeper's condition true and does not wake it.
- The driver doubles a block number in 32 bits, so that block b and block b + 2^31 share a sector;
  `Virtio.Driver.Submit` names the block that the device gets.
- `growproc` with a shrink below zero wraps around and changes nothing (`UserMemory.System.Growproc`).
- The chunk size of `filewrite` is safe even when a chunk is unaligned, makes the indirect block and
  takes every new block from a different bitmap block: `File.File.Filewrite` never logs more than
  MAXOPBLOCKS blocks in a transaction.

## Modelling choices

- A block write is atomic. A crash empties the cache and forgets operations in progress.
- The methods of `Bio` and `Log` are one thread's view. `bget` of a buffer that somebody else holds
  takes the reference and tells that the caller sleeps; the log code on top asks for free buffers.
  Several processes at the cache are the subject of `CacheUsers`, interleavings of operations that
  of `LogSystem`.
- `Fs` works on the plain disk that cache and log provide (`Log.Log.LogWrite`, `CacheSpec`), and
  records the blocks logged, in order, and the disk on which the operation began. `FileCrash` feeds
  exactly these to the block writes of a commit. Copies from and to user memory are all-or-nothing
  for each block: `avail` bytes can be copied.
- Bytes of 32-bit words are little endian. Shifts and masks are divisions and remainders. `uint`
  arithmetic that can wrap is written out (file offsets, clock differences, ring indices, `sbrk`'s
  argument, disk sectors).
- Physical memory is by page number; an address in `Umalloc` counts 16-byte headers, and memory
  from `sbrk` is disjoint from what it gave before and lies above the static `base`.
- `wakeup` and `sleep` are modelled lock by lock in `SleepLock` and, for any channel, in `Channels`,
  where what a lock protects is the set of channels whose conditions hold. `Family` treats `sleep` as one
  step after the look at `killed`, since the process lock is held from the release of wait_lock
  until the process is asleep, and `wakeup` of a channel that only one process sleeps on as a look
  at that process.
- The virtio device is any device that takes avail entries in order, works on what it took in any
  order, does what the chain says and reports success.
- A panic of kernel or shell is a `None`, a `false` result or a precondition, as each contract says.

## Model

| member | source | states |
|---|---|---|
| Blocks.PutWord | kernel/fs.c:421-433 | A stored 32-bit word reads back and no other word of the block changes. |
| LogSpec.CommitCrashIsAtomic | kernel/log.c:179-204 | After a crash behind any of commit's block writes, recovery yields all old or all new home blocks: new exactly if the header write was done. |
| LogSpec.RecoverCrashIsIdempotent | kernel/log.c:117-124 | A crash behind any write of a recovery leaves a disk that recovers to the same home blocks. |
| LogSpec.CommitEnds | kernel/log.c:194-204 | All writes of a commit leave exactly the new home blocks and an empty log. |
| LogSpec.InterruptedRecoveryIsIdempotent | kernel/log.c:117-124 | Any number of interrupted recoveries, each cut off anywhere, changes nothing about the result of the one that completes. |
| LogSpec.TransactionIsAtomic | kernel/log.c:66-124 | Crash anywhere in commit, then any number of crashes in recovery: the completed recovery gives the old or the new state, and which one depends on the header write alone. |
| LogSystem.RunKeepsInv | kernel/log.c:127-236 | In every interleaving of operations, commit writes, crashes and recovery writes, the disk recovers to the committed updates, the cache shows all updates, and log space is reserved. |
| LogSystem.CrashConsistency | kernel/log.c:117-204 | At any moment, what recovery would give is the replay of whole transactions: no operation is split. Updates and commits are those that the list of steps says. |
| LogSystem.ReadsSeeLastUpdate | kernel/log.c:206-236 | The home blocks as reads through the cache give them are the replay of the log_writes that the list of steps says were made and not lost to a crash. |
| LogSystem.RunIsLedger | kernel/log.c:127-236 | In every run the history of updates, and how much of it is durable, is what an account kept from the list of steps alone says: it knows no disk, cache or log. |
| LogSystem.LogWriteTakesEffect | kernel/log.c:215-236 | After any run, a log_write with room in the log gives its block the data, absorbed or not, leaves every other block, and adds exactly its update to the history. |
| LogSystem.StretchGains | kernel/log.c:215-236 | A stretch without crash or panic adds exactly its log_writes to the history, all of them and in order. |
| LogSystem.LastWriteIsRead | kernel/log.c:206-236 | The last log_write to a block, with no crash after it, is what a read of the block gives. |
| LogSystem.CanFinish | kernel/log.c:147-204 | From every state that a run reaches without panic, ending the operations leads, with no crash and nothing more logged, to a state where every update is durable: no operation, commit or recovery is stuck. |
| LogSystem.QuiescentMeansCommitted | kernel/log.c:147-176 | With no operation outstanding and no commit running the log is empty and every update is durable. |
| LogSystem.DurableIsForever | kernel/log.c:179-204 | Updates once durable stay durable through every further step, crashes included. |
| LogSystem.ReservationHolds | kernel/log.c:127-143 | Logged blocks plus all unspent shares never exceed LOGBLOCKS, and an operation with share left never meets a full log. |
| LogSystem.LogWritePanicsIffFull | kernel/log.c:215-223 | For a block of an operation in progress, log_write panics exactly when the log is full, even if the block is already logged. |
| LogSystem.AbsorbedWriteCanPanic | kernel/log.c:221-229 | A concrete run in which a write that needs no new slot panics. |
| Bio.Bcache.constructor | kernel/bio.c:36-53 | All buffers start as device 0, block 0, in one complete ring. |
| Bio.Bcache.Bget | kernel/bio.c:58-89 | The cached buffer if there is one, else the least recently used unreferenced one; failure exactly when the block is not cached and all are referenced; the caller gets the lock exactly if nobody has it, and the reference in any case. |
| Bio.Bcache.Bread | kernel/bio.c:92-103 | As bget, and once locked the buffer holds the cached data or, if it had none, the disk's block. |
| Bio.Bcache.Wake | kernel/bio.c:70-103 | A caller that slept for the lock has the buffer that still stands for its block, filled; every operation keeps the block of a buffer that somebody refers to. |
| Bio.Bcache.Brelse | kernel/bio.c:116-137 | Unlocked, one reference less, and moved to the front of the ring exactly at the last reference. |
| Bio.UnlinkKeepsRing | kernel/bio.c:126-131 | Taking a buffer out of the doubly linked ring leaves the ring of the others, both ways round. |
| Bio.LinkKeepsRing | kernel/bio.c:131-134 | Linking a buffer in at the head gives the ring with it in front. |
| CacheUsers.System.GetBuffer | kernel/bio.c:58-89 | Among any other users: the process holds the block if nobody does, else waits for it with a reference; a panic, and no change, exactly if the block is not cached and every buffer is referred to. |
| CacheUsers.LockedIffHeld | kernel/bio.c:66-71 | The lock of the one buffer for a block is held exactly if some process holds the block. |
| CacheUsers.System.WakeUp | kernel/bio.c:70-71 | A process whose lock became free holds the buffer of the block it asked for. |
| CacheUsers.System.ReadIn | kernel/bio.c:98-101 | The buffer then holds the plain disk's block, however many processes used it meanwhile. |
| CacheUsers.System.LogBlock | kernel/log.c:215-236 | The plain disk takes the holder's contents, and the block is pinned once. |
| CacheUsers.System.InstallBlock | kernel/log.c:66-84 | The held block is written home and unpinned; the plain disk keeps showing the holder's contents. |
| CacheUsers.System.DropBuffer | kernel/bio.c:124-137 | The reference goes after the lock, with others free to take the lock in between; counts and contents stay right. |
| CacheUsers.LocalKeepsInv | kernel/bio.c:58-151 | A step on one buffer by one process keeps the invariant of all buffers, processes, pins and the disk. |
| CacheUsers.System.Run | kernel/bio.c:58-151 | Over any run of any processes, at every moment: each count is the number of references of processes and log, at most one process holds a buffer, and each sees the last contents logged or written to the block it asked for; each event does to processes, plain disk, disk and log exactly what it says, and the run stops exactly at a panic. |
| CacheSpec.BreadIsCoherent | kernel/bio.c:92-103 | Reading keeps the cache in agreement with the plain disk, at most one buffer to a block. |
| CacheSpec.LogWriteIsCoherent | kernel/log.c:215-236 | Logging a changed buffer keeps cache, pinned log blocks and plain disk in agreement. |
| CacheSpec.BwriteIsCoherent | kernel/bio.c:106-112 | Writing a buffer to disk keeps the agreement. |
| CacheSpec.UnpinIsCoherent | kernel/bio.c:146-151 | So does unpinning a block that is installed. |
| CacheSpec.SpareBuffer | kernel/bio.c:72-88 | With fewer than NBUF blocks held or pinned, an unreferenced buffer exists. |
| CacheSpec.NoSpareBuffer | kernel/param.h:10-11 | With NBUF blocks pinned, none does. |
| Log.CommitDisksAreAtomic | kernel/log.c:179-204 | Every disk that the commit code leaves behind after one of its writes recovers to the old or the new state. |
| Log.Log.LogWrite | kernel/log.c:215-236 | The plain disk takes the buffer's contents; the block joins the log and is pinned unless it is there; it fails exactly where the kernel panics. |
| Log.Log.WriteThrough | kernel/bio.c:106-112 | bwrite of a held buffer is one disk write; disk and plain disk take its contents and cache, pinned blocks and disk still stand for one plain disk. |
| Log.Log.WriteLog | kernel/log.c:179-192 | The log area receives the cached contents of the listed blocks, one write each, and home blocks stay. |
| Log.Log.WriteHead | kernel/log.c:103-115 | The header block records the list; one write. |
| Log.Log.InstallTrans | kernel/log.c:66-84 | Each listed home block receives its log copy, in order, and is unpinned when not recovering. |
| Log.Log.Commit | kernel/log.c:194-204 | Succeeds exactly if fewer than NBUF blocks are logged; then the disks it writes are those of the crash proof, and home blocks equal the plain disk. |
| Log.Log.ReadHead | kernel/log.c:87-98 | The list in memory is the list in the header block. |
| Log.Log.RecoverFromLog | kernel/log.c:117-124 | The disk becomes the recovered disk, through the disks of the crash proof. |
| Log.Log.EndOp | kernel/log.c:147-176 | The last operation out commits, and then the disk holds the plain disk's home blocks. |
| Log.Log.Fill | kernel/log.c:127-236 | Three operations that log ten home blocks each are let in and fill the log; the last end_op fails. |
| Log.FullLogPanics | kernel/param.h:10-11 | From boot and recovery, on every disk with 30 home blocks behind the log, such a run ends in the panic of bget. |
| Mkfs.Bitmap | mkfs/mkfs.c:236-250 | The loop marks exactly the first `used` blocks. |
| Mkfs.BlankInv | mkfs/mkfs.c:92-172 | A disk with empty inodes and the metadata marked satisfies the file-system invariant, with no block owned. |
| Mkfs.Image | mkfs/mkfs.c:92-172 | The layout of mkfs, with inodes from block 33, the bitmap in block 46 and data from block 47 of 2000, gives such a disk, with the log in front of the inodes, and an inode ready for the file operations. |
| FsLayout.InodeRoundTrip | kernel/fs.c:226-242 | An inode written to its place in a block reads back field by field. |
| FsLayout.InodeFrame | kernel/fs.c:226-242 | Writing one inode leaves the other inodes of the block alone. |
| FsSpec.NoSharing | kernel/fs.c:405-444 | Under the file-system invariant two places, of one file or of two, never list the same block. |
| FsSpec.AllocKeepsInv | kernel/fs.c:66-89 | Giving a fresh block to a file keeps the bitmap equal to metadata plus all listed blocks. |
| FsSpec.FreeKeepsInv | kernel/fs.c:92-106 | So does freeing a block that its place no longer lists. |
| FsSpec.SwitchInode | kernel/fs.c:226-242 | Once one inode is up to date on disk, the invariant seen from it is the invariant seen from any other. |
| FsSpec.StableContents | kernel/fs.c:528-562 | Work on one file leaves the contents of every other file as they were. |
| FsSpec.WriteAtTwice | kernel/file.c:148-173 | Two writes end to end are one write of both. |
| Fs.Fs.Balloc | kernel/fs.c:66-89 | The first free block, marked and zeroed; 0 only if the disk is full. |
| Fs.Fs.Bfree | kernel/fs.c:92-106 | The block's bit is cleared and nothing else changes; never a block that is free already. |
| Fs.Fs.Bmap | kernel/fs.c:405-444 | The file's block, allocated if missing, with the indirect block if needed; all invariants kept; the blocks it logs counted. |
| Fs.Fs.Iupdate | kernel/fs.c:226-242 | The inode on disk equals the inode in memory; other inodes stay. |
| Fs.Fs.Writei | kernel/fs.c:528-562 | The file's bytes are the old ones overwritten or extended at off by exactly the bytes counted; -1 exactly for the three range errors; all bytes, or those up to the last block end among the bytes that can be copied, and fewer only if the disk is full; at most MAXOPBLOCKS blocks logged for 3*BSIZE bytes; other files unchanged. |
| Fs.Fs.Readi | kernel/fs.c:494-519 | Exactly the requested slice clipped to the size; nothing allocated; both error answers. |
| Fs.Fs.Itrunc | kernel/fs.c:448-476 | Exactly the file's blocks become free, each once; the inode is empty on disk too; other files unchanged. |
| FsRun.OthersOk | kernel/fs.c:226-242 | Work on one inode leaves every other file, and the ownership of all blocks, as the list of files says. |
| FsRun.Load | kernel/fs.c:293-320 | The inode read from the disk is the file in the list, ready for every operation. |
| FsRun.Ialloc | kernel/fs.c:200-220 | The first inode not in use becomes an empty file of the type, 0 exactly if there is none; no block is lost by clearing it. |
| FsRun.DoTruncate | kernel/fs.c:334-362 | What iput does to an inode without links: its blocks are free, it is out of use, and all other files are as they were. |
| FsRun.Run | kernel/fs.c:200-562 | Over any run of creations, reads, writes, truncations and removals the disk holds the files that the answered operations make, every answer is right for the files of its moment, a write is short only if it left no block free, and no block is shared, leaked or listed while free. |
| FsRun.RunFromImage | mkfs/mkfs.c:92-172 | Such a run from the image of mkfs, where no inode is in use. |
| File.File.WriteChunk | kernel/file.c:148-173 | One transaction logs at most MAXOPBLOCKS blocks, all behind the log, changes no others, and writes its chunk at the offset. |
| File.File.Filewrite | kernel/file.c:134-179 | The bytes written are one write at the old offset; n is returned exactly if all of it was written; with `avail` bytes to copy it gets exactly as far as whole chunks and then whole blocks go, and less far only if the disk is full; every transaction is bounded, and after each the file on disk holds the chunks so far. |
| FileCrash.HomeHolds | kernel/fs.h:8-24 | A file and the whole block ownership are the same on two disks that differ in their logs only. |
| FileCrash.CrashLeavesWholeChunks | kernel/file.c:148-173 | A crash behind any block write of any transaction of a filewrite, and any crashes in recovery: the recovered file is the old one overwritten by whole chunks, this one included exactly if the header was written; no block is shared or leaked, and other files are unchanged. |
| PageTable.MakePte | kernel/riscv.h:358-369 | Page number and flags of an entry read back; valid; leaf exactly with R, W or X. |
| PageTable.PxSplit | kernel/riscv.h:372-374 | The three 9-bit indices and the page number determine each other. |
| PageSpec.LeafWriteKeepsTrees | kernel/vm.c:145-174 | Writing one leaf entry keeps every address space a tree of its own tables. |
| PageSpec.AttachKeepsPte | kernel/vm.c:103-112 | Hanging a new empty table into a tree changes no translation. |
| PageSpec.AllReturned | kernel/vm.c:262-288 | When a tree is freed, every page that belonged to it is free. |
| Vm.Machine.constructor | kernel/kalloc.c:33-40 | Every page past the kernel is on the free list, once. |
| Vm.Machine.Kalloc | kernel/kalloc.c:68-82 | The first free page leaves the list and is filled; none exactly if the list is empty. |
| Vm.Machine.Kfree | kernel/kalloc.c:46-63 | The page goes to the head of the list. |
| Vm.Machine.Kfreepages | kernel/kalloc.c:85-95 | The length of the free list. |
| Vm.Machine.Walk | kernel/vm.c:97-115 | The lowest table for a page; with alloc, at most two tables are added and no translation changes, and it fails only with no page left; without, nothing changes. |
| Vm.Machine.Mappages | kernel/vm.c:145-174 | Exactly the pages of the range get the given frames and permissions, or, out of memory, a prefix of them; a page already mapped is refused. |
| Vm.Machine.Uvmunmap | kernel/vm.c:192-212 | Exactly the range is unmapped, holes allowed; with do_free its frames are free. |
| Vm.Machine.Uvmalloc | kernel/vm.c:216-240 | New zeroed pages for the growth, or on failure the old map again and no page lost; failure only if at most three pages for each new page are free. |
| Vm.Machine.Uvmdealloc | kernel/vm.c:246-258 | The pages between the new and the old size, and only those, are unmapped and freed. |
| Vm.Machine.Uvmcopy | kernel/vm.c:296-324 | Every page of the source has an equal copy with equal flags on a fresh frame; on failure no new leaf is left; failure only if at most three pages for each page are free. |
| Vm.Machine.Uvmcreate | kernel/vm.c:178-187 | A new empty address space, or nothing. |
| Vm.Machine.Freewalk | kernel/vm.c:262-278 | All tables of a tree without leaves are freed, and nothing else. |
| Vm.Machine.Uvmfree | kernel/vm.c:282-288 | Every page of the address space is free again; other spaces keep their translations and contents. |
| Vm.Machine.Vmfault | kernel/vm.c:452-473 | A fault below the size on an unmapped page maps one fresh zeroed page, unless at most three pages are free; every other fault changes no translation. |
| UserMemory.System.NewProc | kernel/vm.c:178-187 | A process with an empty address space, disjoint from all others. |
| UserMemory.System.Growproc | kernel/proc.c:276-295 | The size changes by n, or not at all when memory runs out, the top is passed, or a shrink would go below zero; old pages keep translation and contents, new ones are fresh and zeroed, dropped ones free; no other process changes. |
| UserMemory.System.GrowLazy | kernel/sysproc.c:55-64 | Only the size grows, up to TRAPFRAME. |
| UserMemory.System.PageFault | kernel/trap.c:73-75 | A lazily grown page is mapped fresh and zeroed; every other page, of this process and of the others, keeps translation and contents. |
| UserMemory.System.ForkProc | kernel/proc.c:311-317 | The child has a copy of every page of the parent; the parent and all others keep theirs; failure loses no page and means that memory ran out. |
| UserMemory.System.DropProc | kernel/proc.c:250-256 | Every page of the process is free; other processes keep every translation and the contents of every page. |
| UserMemory.System.Run | kernel/vm.c:178-324 | Over any run each page is free, one table or one user page of one process, and all user pages lie below their size; each request changes the list of processes and sizes as it asks, or is refused for want of room or memory; a process that no request is about keeps its size, translations and page contents; with no process left all pages are free. |
| Umalloc.Heap.FindPlace | user/umalloc.c:30-32 | The search ends, at the one place between whose neighbours the block belongs. |
| Umalloc.Heap.JoinNext | user/umalloc.c:33-37 | The block takes in the free block that it touches, or links to it. |
| Umalloc.Heap.JoinPrev | user/umalloc.c:38-43 | The block before takes it in or links to it; afterwards no two free blocks touch. |
| Umalloc.Heap.Free | user/umalloc.c:24-44 | All of the block is inside one free block; free list circular and in address order; free and used blocks tile the heap; other blocks keep their sizes. |
| Umalloc.Heap.Morecore | user/umalloc.c:46-61 | Memory from sbrk joins the heap, and a block of the size asked for is then free; 0 leaves all as it was. |
| Umalloc.Heap.Search | user/umalloc.c:74-87 | The first block that fits, going round from freep; the search ends; none exactly if no free block fits. |
| Umalloc.Heap.Take | user/umalloc.c:75-85 | The block found is handed out whole, or its last units are; the rest stays free. |
| Umalloc.Heap.Malloc | user/umalloc.c:63-90 | For every request: a new block, apart from all blocks in use, with room for nbytes and less than 16 bytes more; null exactly if nothing fits and sbrk fails; the heap grows by at least 4096 units, and only if nothing fits. |
| Umalloc.GrowthCovers | user/umalloc.c:46-54 | The heap grows by 4096 units, or by just what the request needs if that is more. |
| Umalloc.Heap.Run | user/umalloc.c:24-90 | Over any run the heap stays tiled; the blocks in use are those that the calls and their answers say, each once and still of the size asked for; a request is refused only if sbrk is, which it counts as for each one above 2^31 - 32 bytes that fits nothing; with none in use the heap is one free block. |
| Umalloc.AllFreeIsOneBlock | user/umalloc.c:33-43 | If nothing is in use and the memory is one stretch, the free list is base and one block of all of it. |
| Umalloc.RequestIsExact | user/umalloc.c:52-58 | sbrk is asked for what the header claims exactly for requests up to 2^31 - 32 bytes. |
| Umalloc.LargestRequest | user/umalloc.c:52-58 | The largest request asks sbrk for 16 bytes. |
| SleepLock.RunKeepsInv | kernel/sleeplock.c:21-41 | Every step of lock, sleep, wakeup, kill and scheduler keeps the invariant of spinlocks, process locks, sleepers and holders. |
| SleepLock.NoLostWakeup | kernel/proc.c:633-678 | A process asleep on a sleep lock sleeps because it is taken, or because the release that cleared it has still to look at that process. |
| SleepLock.FreeLockHasNoSleepers | kernel/sleeplock.c:33-41 | When the lock is free and nobody works on it, nobody sleeps on it. |
| SleepLock.OneHolder | kernel/sleeplock.c:21-52 | At most one holder, and locked and pid name it, so holdingsleep is right. |
| SleepLock.HeldIffCalled | kernel/sleeplock.c:21-41 | Outside the lock code a process holds exactly the locks for which it called acquiresleep once more than releasesleep, and otherwise the calls are equal in number: neither returns without its effect. |
| SleepLock.WokenIff | kernel/proc.c:664-700 | A sleeper becomes runnable exactly by a kill, or by a wakeup of its channel that comes to it. |
| SleepLock.StopsIff | kernel/proc.c:585-660 | A running process stops running exactly when it falls asleep or its CPU is taken away. |
| SleepLock.ProcLockIsGivenUp | kernel/proc.c:664-678 | Whoever has a process lock can go on without waiting and frees it within three steps. |
| SleepProgress.CanSettle | kernel/sleeplock.c:21-41 | From every state of every run all calls of acquiresleep, releasesleep, sleep and wakeup can be carried to their ends, with no call begun and nobody killed, except for sleepers on a lock that is taken: no interleaving ends in a deadlock of spinlocks or a sleeper that nobody will wake. |
| SleepProgress.FreeLockCanBeHad | kernel/sleeplock.c:21-31 | Once all is settled so, a process outside the lock code can acquire any lock that is free. |
| Channels.RunKeepsInv | kernel/proc.c:633-678 | Every step of sleep, wakeup, kill and scheduler, with any changes of what the locks protect, keeps the invariant of locks, sleepers and wakeups owed. |
| Channels.NoLostWakeup | kernel/proc.c:633-678 | A process asleep on any channel sleeps because its condition is false, or because the process that made it true has still to look at it. |
| Channels.ReadyHasNoSleepers | kernel/proc.c:664-678 | While the lock is free, nobody sleeps on a channel whose condition holds. |
| Channels.WokenIff | kernel/proc.c:664-700 | The same for any channel. |
| Channels.StopsIff | kernel/proc.c:585-660 | A running process stops running exactly when it falls asleep or its CPU is taken away. |
| Channels.SleepReturnsLocked | kernel/proc.c:633-660 | sleep returns only with the lock of its channel held again. |
| ChannelProgress.CanSettle | kernel/proc.c:633-678 | From every state of every run all stretches of code under locks, sleeps and wakeups can be carried to their ends, except for sleepers whose condition is false. |
| ChannelProgress.LockCanBeHad | kernel/proc.c:633-678 | Once all is settled so, a process outside can come to hold any of the locks. |
| ChannelProgress.SleepSleeps | kernel/proc.c:633-660 | sleep, with nobody in its way, gives up the condition lock and leaves the process asleep on its channel with its own lock free. |
| Sleepers.LogPays | kernel/log.c:127-176 | Every stretch of begin_op, end_op and log_write wakes the channel if it makes room for an operation. |
| Sleepers.LogStretches | kernel/log.c:127-176 | In `LogSystem` an operation can begin exactly if the condition of begin_op holds, and each step does to committing, outstanding and the log's length what these stretches do. |
| Sleepers.CommitIsQuiet | kernel/log.c:168-171 | The commit, which runs without the lock, makes no condition true. |
| Sleepers.BeginOpNotForgotten | kernel/log.c:127-143 | A process asleep in begin_op sleeps because a commit runs or its share does not fit, or it is about to be woken. |
| Sleepers.DiskPays | kernel/virtio_disk.c:155-182 | Every stretch of the driver wakes those whose descriptors or buffer it makes available. |
| Sleepers.DiskNotForgotten | kernel/virtio_disk.c:226-287 | A process asleep in virtio_disk_rw lacks three descriptors or waits for its buffer, or it is about to be woken. |
| Sleepers.PipePaysIff | kernel/pipe.c:58-135 | Every stretch of the pipe code wakes those whose condition it makes true, except exactly a killed writer that put the first bytes into an empty pipe. |
| Sleepers.SleepPays | kernel/sleeplock.c:21-41 | Of all steps of `SleepLock` only the one that clears a lock makes its condition true, and its process goes on to wake the channel from the first process on. |
| Pipe.Pipe.Write | kernel/pipe.c:76-104 | A stretch of pipewrite puts the next bytes of the source into the pipe, as far as room, copying and the writer's life go; it returns the count, returns -1 or sleeps exactly as these decide, and for its sleepers it is one of the stretches of `Sleepers`. |
| Pipe.Pipe.Read | kernel/pipe.c:106-134 | A stretch of piperead takes the oldest bytes, as many as are there, asked for and can be copied out; a byte that cannot be copied out stays; it returns the count, returns -1 or sleeps exactly as these decide. |
| Pipe.Pipe.FullIs | kernel/pipe.c:87-114 | The tests for a full and an empty pipe are right although the 32-bit counts wrap around. |
| Pipe.Pipe.Run | kernel/pipe.c:58-135 | Over any stretches of any writers and readers, what was read is a prefix of what was written, and the rest is at most PIPESIZE bytes: nothing is lost, doubled, changed or overtaken. |
| Family.RunKeepsInv | kernel/proc.c:299-465 | Every step of fork, exit, reparent, wait, kill and scheduler keeps the family invariant. |
| Family.FamilyIsSafe | kernel/proc.c:360-416 | Every process but init has a parent that is neither free nor a zombie. |
| Family.ZombiesHaveNoChildren | kernel/proc.c:360-371 | No zombie and no free slot is anybody's parent. |
| Family.NoForgottenZombie | kernel/proc.c:398-411 | A process asleep in wait has no zombie child, except init between being given one and being woken. |
| Family.WaitScanIsRight | kernel/proc.c:429-464 | At the end of its scan wait knows exactly if the process has children, and none of them is a zombie. |
| Family.KilledAsleepIffRaced | kernel/proc.c:456-463 | A step leaves a process asleep in wait although killed exactly if it is the process falling asleep with the kill already set. |
| Family.KillCanMissWaiter | kernel/proc.c:456-463 | A run that reaches such a state. |
| Family.ReapedByParent | kernel/proc.c:433-451 | A zombie leaves the table only through its current parent's wait, with its status, after it switched away. |
| Family.EveryPidOnce | kernel/proc.c:94-105 | Each pid handed out is in exactly one place: the table, one answer of wait with the status recorded at its death, or a failed fork. That this status is the one given to exit is `Lineage.StatusFromExit`. |
| Lineage.StatusFromExit | kernel/proc.c:377-465 | For every answer of wait, the list of steps has a call of exit with that status by a process with that pid. |
| Lineage.NoExitLost | kernel/proc.c:377-465 | For every call of exit, its process is still leaving or a zombie with that status, or wait answered that status. |
| Lineage.ParentIsForker | kernel/proc.c:300-371 | The parent of a process is the one whose fork was given its pid, or init, and then that one called exit. |
| Lineage.ReapedByForker | kernel/proc.c:360-451 | A process is reaped by the process whose fork was given its pid, or by init, and then that one called exit. |
| Lineage.WaitEnds | kernel/proc.c:421-464 | A wait ends only by reaping a zombie child of the caller, by a status that cannot be copied out, or, for a caller that was killed or has no child, with -1; after a full scan it ends exactly in the last case. |
| Lineage.SwitchesIff | kernel/proc.c:360-465 | In every run a sleeper wakes exactly by a kill, by what it waits for elsewhere, or, in wait, when an exit wakes it as init or as parent; a process stops running exactly when its CPU is taken, it sleeps or it dies. |
| Lineage.ReapedAfterSwitch | kernel/proc.c:406-451 | A zombie is reaped only after the last of its steps was its switch away, which comes after its death. |
| FamilyProgress.CanSettle | kernel/proc.c:300-465 | From every state of every run all forks, exits and waits can be carried to their ends, with no call begun, none failing and nobody killed, except waits that sleep without a zombie child. |
| Throttle.VisitRunsIff | kernel/proc.c:497-520 | A visit dispatches exactly when budget or a new window allows it and, in eco mode, at the third such visit; it counts exactly such visits and dispatches, and changes window, budget use and skip counter only. |
| Throttle.ThrottledAlways | kernel/proc.c:495-548 | In every interleaving a budget is never overdrawn, eco visits are three times the dispatches plus the counter, and ticks_total never passes cpu_ticks. |
| Throttle.WindowTestIsRight | kernel/proc.c:501 | The window test on unsigned readings is right exactly if the reading is not older than the window's start. |
| Throttle.ChargesWithinAllowance | kernel/trap.c:86-97 | A stretch charges at most what its window has left, full budgets for the windows its readings can still open, and a full allowance for each reading older than the window's start. |
| Throttle.ChargesBound | kernel/proc.c:490-507 | Readings that span T ticks, in any order, S of them older than the window's start when used: at most B*(T/50 + 2)*(1 + S) ticks are charged. |
| Throttle.BudgetBound | kernel/proc.c:500-507 | With no such reading, B*(T/50 + 2). |
| Throttle.StaleReadingBreaksBound | kernel/proc.c:490-504 | A run of two CPUs, each visit on a reading of its own, in which one old reading makes three ticks charged where the bound is two. |
| Throttle.HardLimit | kernel/trap.c:82-97 | Once a limit L is set at total T0 and left alone, the total never exceeds max(L, T0) + 1. |
| Throttle.KilledIff | kernel/trap.c:85-97 | In every run a process is killed exactly if one of the steps is a kill, or charges a tick when more timer interrupts were counted than the limit then in force, told by the list of steps alone. |
| Throttle.NotKilledEarly | kernel/trap.c:90-94 | Without a kill, and with every limit in force 0 or at least L, a killed process has more than L ticks counted. |
| Throttle.StepKillsIff | kernel/trap.c:90-94 | A step leaves a process killed exactly if it was, or the step is a kill, or a charge with 0 < limit < cpu_ticks. |
| Throttle.GoneOnlyIf | kernel/trap.c:82-83 | A process is gone only if it called exit or was killed. |
| Throttle.RunCounts | kernel/trap.c:86-89 | In every run ticks_total, cpu_ticks, limit, budget and mode are the counts and the last settings of the list of steps. |
| Throttle.UsedIs | kernel/proc.c:500-504 | A window starts at the reading of the step that began it, and ticks_used is the number of charges since. |
| Throttle.ReadingIs | kernel/proc.c:490-492 | A scheduler works with the clock of the start of its pass. |
| Throttle.NeverStopped | kernel/proc.c:495-520 | From every state of every run in which the process is neither killed nor gone, clock, schedulers and timer alone, with a wakeup if it sleeps, can come to charge it another tick: neither budget nor eco mode stops it for good. |
| Throttle.SleepIsIdle | kernel/proc.c:495-497 | A process that sleeps is neither visited nor charged until it is woken or killed. |
| Throttle.ExitIsTheEnd | kernel/trap.c:82-97 | After exit no step concerns the process any more. |
| VirtioSpec.FreeCount | kernel/virtio_disk.c:199-213 | Free descriptors are NUM less three for each request in flight. |
| VirtioSpec.RingPush | kernel/virtio_disk.c:271-277 | A new ring entry overwrites nothing that waits. |
| VirtioSpec.IndicesDiffer | kernel/virtio_disk.c:312 | The 16-bit indices differ exactly when the true counts do. |
| Virtio.Driver.AllocDesc | kernel/virtio_disk.c:155-166 | The first free descriptor, or -1 exactly if none is free. |
| VirtioSpec.RemoveFlight | kernel/virtio_disk.c:168-197 | With the three descriptors of a request cleared and free, every other request keeps its chain, and no descriptor is lost. |
| VirtioHistory.ReturnMeans | kernel/virtio_disk.c:283-292 | A request that was seen is in the history exactly once, and its buffer holds what was moved: for a read, what the writes before it left in the block; for a write, what it was given. |
| VirtioHistory.EachOnce | kernel/virtio_disk.c:215-327 | Each request ever submitted waits for the device or was carried out exactly once. |
| Virtio.Driver.Alloc3 | kernel/virtio_disk.c:199-213 | Three free descriptors exactly if three are free; otherwise those taken go back. |
| Virtio.Driver.FreeChain | kernel/virtio_disk.c:184-197 | Exactly the three descriptors of the chain are freed. |
| Virtio.Driver.Submit | kernel/virtio_disk.c:215-281 | A request with three descriptors of its own goes to the end of the avail ring, exactly if three are free; it is for the block that the 32-bit sector number addresses. |
| Virtio.Driver.DeviceTake | kernel/virtio_disk.c:271-281 | The device finds the oldest request not taken, and none exactly if none waits. |
| Virtio.Driver.DeviceComplete | kernel/virtio_disk.c:235-265 | Following the chain the device does exactly what was asked: that block, that buffer, that direction; the history records it. |
| Virtio.Driver.Acknowledge | kernel/virtio_disk.c:312-324 | The oldest posted request is seen, and exactly its buffer is released, which was busy. |
| Virtio.Driver.Intr | kernel/virtio_disk.c:294-327 | With the device at work all the time the loop ends, every posted request is seen, and none goes back. |
| Virtio.Driver.Finish | kernel/virtio_disk.c:283-292 | The request is gone and its descriptors are free; all others are untouched; the caller's buffer holds what its request, carried out exactly once, moved. |
| Virtio.Driver.Run | kernel/virtio_disk.c:215-327 | Over any run each unreturned request owns three descriptors of its own; the requests are those events that were let in, in order; each waits or was carried out exactly once, on its buffer, block and direction, a write with what its buffer held when it was made; the disk is the replay of the writes carried out, and each read brought what its block then held. |
| Virtio.Driver.Happen | kernel/virtio_disk.c:215-327 | A request is let in exactly if its buffer and block exist, nobody waits on the buffer and three descriptors are free. |
| ShellSpec.GetToken | user/sh.c:271-314 | The cursor moves on and stays in the text; every token but the end is non-empty; a word is a maximal run of word characters. |
| ShellGrammar.TokensSpellText | user/sh.c:271-314 | The tokens of a text, written one after the other, are the text without its blanks. |
| ShellGrammar.ParserIsGrammar | user/sh.c:333-452 | For every text: the parser accepts it exactly if its tokens are those of a tree of the language, and gives what the tree means; nothing is left over, and no text has two meanings. The language says which tokens a command, a block, a pipeline, a background mark and a list consist of, and how they nest. |
| ShellProof.ShownParses | user/sh.c:350-452 | A command printed with parentheses only where binding needs them is read back by the part of the parser for its place: redirections bind tightest, then pipes to the right, then &, then lists to the right. |
| ShellProof.RoundTrip | user/sh.c:333-452 | Parsing the text of any command, so printed, gives the command back. |
| Shell.LineWords | user/sh.c:350-452 | Every span in a parsed tree is a whole word, at most nine to a command. |
| Shell.EveryWordUsed | user/sh.c:333-452 | The words of an accepted line are exactly the words of its tree. |
| Shell.Parser.Token | user/sh.c:271-314 | gettoken's loops compute the grammar's token. |
| Shell.Parser.Peek | user/sh.c:316-326 | Skips blanks and answers for the next character. |
| Shell.Parser.Redirs | user/sh.c:380-403 | The loop wraps the command in the grammar's redirections, in order, or panics with it. |
| Shell.Parser.Args | user/sh.c:435-451 | The loop gathers words into the innermost command as the grammar does, or panics with it. |
| Shell.Parser.Simple | user/sh.c:421-436 | A block or a simple command, as the grammar says. |
| Shell.Parser.Block | user/sh.c:405-419 | A parenthesised line with its redirections, as the grammar says. |
| Shell.Parser.Piped | user/sh.c:367-378 | A pipeline, nested to the right, as the grammar says. |
| Shell.Parser.Line | user/sh.c:350-365 | A list with its background marks, as the grammar says; the recursion ends on every text. |
| Shell.Parser.Command | user/sh.c:333-348 | For every line: a tree exactly if the tokens of the whole line are those of a tree of the language, and then what it means; a panic otherwise. |
| Shell.NulTerminate | user/sh.c:454-499 | NULs at the ends of all words of the tree and nowhere else. |
| Shell.ParseAndCut | user/sh.c:333-348 | After parsing and cutting, every word of the tree is a C string with exactly its text. |
| Grep.HereIs | user/grep.c:84-96 | matchhere holds exactly if a prefix of the text, all of it if anchored, is in the language. |
| Grep.StarIs | user/grep.c:98-106 | matchstar holds exactly if some fitting characters and then such a prefix come first. |
| Grep.MatchHere | user/grep.c:84-96 | The recursion computes that and ends. |
| Grep.MatchStar | user/grep.c:98-106 | The loop computes that and ends. |
| Grep.Match | user/grep.c:72-82 | True exactly if some part of the text, anchored as the pattern says, is in the pattern's language. |

## Left out

- Boot, trampoline, trap entry, interrupt controller, UART and console: hardware with no meaning in this model.
- Memory ordering: locks and block writes are atomic steps.
- Directories, path names, link counts and the inode cache: easier than the layers below them.
- Console input rings, exec and system-call argument fetching: sequencing of what is modelled here.
- The trampoline and trapframe mappings of a process: `UserMemory` has the user pages only.
- Accounting reports and the programs that print them.
- LogSystem.RunKeepsInv: an operation's updates are whole blocks; it does not describe who holds which buffer lock.
- Log.Log.Commit: one thread; commits overlapping new operations are excluded by the log's own flag, which `LogSystem` models.
- Fs.Fs.Writei: a user copy that fails inside a block changes nothing of that block, because copies are all-or-nothing for each block.
- Umalloc.Heap.Malloc: where nothing fits and sbrk succeeds on a request above 2^31 - 32 bytes, the code claims memory that it did not get, and the contract says nothing; `Umalloc.RequestIsExact` gives the exact limit. Sizes are not cut to 32 bits, because the memory that sbrk can give is smaller.
- Umalloc.Heap.Run: a request above 2^31 - 32 bytes that fits nothing counts as refused by sbrk, for the same reason.
- SleepLock.NoLostWakeup: fairness and bounded waiting are not stated.
- Channels.NoLostWakeup: the steps are those of code that wakes what it owes; `Sleepers` shows which code that is.
- Family.RunKeepsInv: closing files and freeing memory in exit and wait are not steps here; the memory side is in `UserMemory`.
- Throttle.BudgetBound: the span is measured in the schedulers' clock readings, because a reading may be older than the moment it is used; spans of 2^32 ticks or more are excluded.
- FileCrash.CrashLeavesWholeChunks: the filewrite is the only operation, so that each of its transactions is a commit of its own; group commit is in `LogSystem`.
- Log.Log.Bread: a caller that would sleep for a held buffer is not modelled here, only in `CacheUsers`.
- CacheUsers.System.Run: a process releases a buffer it changed only after it logged or wrote it, as all of the source does but a write whose user copy fails.
- FsRun.Run: each operation reads its inode afresh; the inode cache and its locks are not modelled.
- Vm.Machine.Mappages: the kernel's own page table, which maps devices and all of memory a second time, is not modelled.
- Virtio.Driver.Submit: the sleep until descriptors are free is not a step; the caller tries again. The block that the sector number addresses lies on the disk.
- Mkfs.Image: the files that mkfs copies in are not modelled.
- ShellProof.RoundTrip: trees over words without blanks and symbols, which are the only ones that the shell can produce.
- Grep: reading lines and the buffer of the main loop are not modelled.
