# A verified model of the xv6 kernel's hard parts, and of the paging simulator

This project models the parts of this repository whose correctness is not visible in any one
function, and proves what they are for:

- **The redo log** (`xv6/log.c`): `RedoLog`, `LogDevice`, `LogProtocol`, `LogProgress`. Commit and
  recovery as single block writes with a crash possible between any two, the code on a flat disk, and
  the group-commit protocol with any number of processes.
- **The buffer cache and the memory disk** (`xv6/bio.c`, `xv6/memide.c`): `BufferCache`.
- **Files and block allocation** (`xv6/fs.c`, `filewrite` in `xv6/file.c`): `FsLayout`, `FsOwner`,
  `FsCount`, `FileSystem`; `FsExample` is one disk, and `FsCrash` puts files and log together.
- **The user-level allocator** (`xv6/umalloc.c`): `KRHeap`.
- **Page tables and the page free list** (`xv6/vm.c`, `xv6/kalloc.c`): `PageOwner`, `PageView`,
  `PageCount`, `PageCopy`, `PageTable`.
- **sleep and wakeup and what is built on them** (`xv6/proc.c`, `xv6/sleeplock.c`, `xv6/pipe.c`):
  `SleepLock`, `SleepProgress`, `ProcTable`, `Pipe`.
- **The shell's parser** (`xv6/sh.c`): `ShellLexer`, `ShellParser`, `ShellGrammar`,
  `ShellTerminate`, `ShellPrinter`.
- **The matcher of grep** (`xv6/grep.c`): `Grep`.
- **The paging simulator** (`lab-07/sim.c`): `PagingSim`, `PagingRun`, `PagingLimit`.

`Common` holds a few facts about sequences of distinct numbers.

Where the source updates things in place, the model is a class with the source's loops, proved
against functions on values; the theorems are about those functions. Where the source is a protocol
between processes, the model is a state machine whose steps are the stretches of code that run under
one lock, and the theorems are about all its runs. A `panic` is a precondition, an error result or a
state shown unreachable, as each comment says.

## Results worth reading first

- `RedoLog.CommitIsAtomic`, `LogProtocol.CrashSafety`: whatever crashes happen, also during
  recovery, the home blocks end up all old or all new, and which of the two is decided by the first
  write of the header.
- `LogProtocol.FitsExactlyWhen`: the size test of `log_write` runs before `log.lock` is taken, so it
  keeps the block list inside the log region if and only if that region holds LOGSIZE blocks.
  `mkfs` makes it one block shorter; the lemma `Overflow` is the run in which two operations, each
  within its reservation, push the list past the end.
  `LogProgress.FitsWithoutRace`: it passes the end in no other way.
- `LogProgress.NeverStuck`, `WindsUp`: no operation within its reservation meets a panic, and from every
  reachable state the operations under way can end in a commit after which nobody sleeps.
- `FsCrash.CrashInSession`, `CrashInFileWrite`: the file system on top of the log. After a power
  failure at any write of a run of transactions the disk holds the files after a whole number of them;
  for `filewrite` that is the old file with a whole number of chunks written, for `itrunc` the whole file
  or none of it.
- `FileSystem.FileSys.WriteI`, `ReadI`, `ITrunc` and `FileWrite`: files are byte sequences, blocks
  are owned by one file each, and a write panics for want of blocks if and only if fewer are free than
  its range lacks. What it logs is stated exactly. Every chunk of `filewrite` stays within MAXOPBLOCKS.
  That bound is reached on disks with several bitmap blocks (`FsCount.ChunkIsTight`,
  `FileSys.AppendSpread`, and the disk of `FsExample`); with a single bitmap block, as `mkfs` makes it,
  a chunk logs at most seven blocks (`FsCount.SmallDiskLogsLess`).
- `KRHeap.Heap.Free` and `Malloc`: the ring stays in address order and fully coalesced, units are
  conserved, both calls end, `malloc` cuts from the first block after `freep` that fits, and asks sbrk
  exactly when none does.
- `PageTable.Machine.FreeVm`, `SetupKvm`, `AllocUvm`, `CopyUvm` with `PageCopy.PoolIsConstant`:
  kalloc may fail anywhere, and no frame is lost, shared or freed twice. Each says exactly how many free
  frames it needs: 65 for a kernel directory, and a frame for each page and each missing page table.
- `Pipe.CallsStoreOnce`: over every run, each call of `pipewrite` stores its bytes once and in order,
  however often it sleeps.
- `SleepProgress.EverybodyGetsIn`: on every schedule, whoever tries to take a sleep-lock gets it and gives
  it back within a bounded number of steps, if nobody new comes.
- `BufferCache.Cache.ReadBlock`: a reader gets what the block holds, dirty buffers included, and nothing
  but a store changes what a block holds, recycling buffers least of all.
- `SleepLock.OrderMatters`, `Pipe.StepInv`, `ProcTable.ZombiesAreReapable`: no wakeup is lost, and
  exactly when. `Pipe.KilledWriterLosesWakeup` is the run in which a killed writer leaves a reader
  asleep beside a full pipe.
- `ShellGrammar.ParserIsGrammar` and `TokensUnique`: for every line, the tokens are the one way to make
  up the line, and the parser gives exactly the tree of a grammar stated without it.
  `ShellPrinter.ParsePrint`, `ShellTerminate.ParseBuffer`: parsing undoes printing, and terminating
  the words in place spoils none of them.
- `Grep.MatchCorrect`: the matcher decides exactly the declarative semantics of its patterns.
- `PagingSim.RunRefines`, `EvictsOldest`, `RightExactlyWhen`: the simulator follows its history
  specification exactly as long as some resident counter is below NUM_MAX;
  `PagingLimit.LimitIsReached` is a run that gets past that.

## Model

| member | source | states |
|---|---|---|
| RedoLog.CommitStepSafe | xv6/log.c:192-202 | each single block write of commit keeps its invariant and the contents the file system sees; what a recovery would restore changes only at the first header write, from the old contents to the new |
| RedoLog.InstallSafe | xv6/log.c:69-82 | copying one log block home changes neither what is seen nor what recovery would restore, and unpins that buffer |
| RedoLog.RecoverStepSafe | xv6/log.c:115-122 | no step of recovery changes what recovery yields |
| RedoLog.RecoveryIsIdempotent | xv6/log.c:115-122 | after any number of recoveries cut short anywhere, one that finishes leaves what the first would have left |
| RedoLog.CommitProgress | xv6/log.c:192-202 | after i block writes of a commit a recovery would restore the old contents if i is at most the number of listed blocks, and the new ones otherwise |
| RedoLog.CommitIsAtomic | xv6/log.c:69-122 | commit cut after any write, recovery cut any number of times, then one recovery: all home blocks are old or all are new, decided by the header write; an uninterrupted commit ends with the new ones |
| LogDevice.HeadRoundTrip | xv6/log.c:85-113 | reading the header block gives back the block list that was written into it |
| LogDevice.Log.WriteHead | xv6/log.c:101-113 | the word-by-word loop changes the on-disk list to the in-memory one and nothing else |
| LogDevice.Log.ReadHead | xv6/log.c:85-96 | the in-memory list becomes the one on disk |
| LogDevice.Log.LogWrite | xv6/log.c:213-233 | the two size panics exactly; a block already listed is not listed again; its buffer is pinned |
| LogDevice.Log.WriteLog | xv6/log.c:177-190 | on the flat disk the loop makes exactly the first writes of RedoLog's commit, in order |
| LogDevice.Log.InstallTrans | xv6/log.c:69-82 | the loop makes exactly the installing writes of RedoLog's commit, in order |
| LogDevice.Log.CommitTransaction | xv6/log.c:192-202 | the disk passes through exactly the states of RedoLog's commit; at the end the list is empty, nothing is pinned and home blocks are what was seen |
| LogDevice.Log.RecoverFromLog | xv6/log.c:115-122 | the disk passes through exactly the states of RedoLog's recovery and ends with the recovered contents and an empty list |
| LogProtocol.InitInv | xv6/log.c:53-66 | a machine switched on with a well-formed log satisfies the invariant that the runs start from |
| LogProtocol.ProtoStep | xv6/log.c:125-174 | every step of every process keeps the counting invariant of the protocol, whatever the size of the log region |
| LogProtocol.StepEffect | xv6/log.c:125-233 | durable contents change only at a header write, to the contents seen then, with no operation in progress; seen contents change only when a block is recorded; a crash falls back to the durable ones |
| LogProtocol.CrashSafety | xv6/log.c:125-233 | over every run of a machine switched on with a well-formed log, whose list fits the region, with crashes anywhere: what a recovery would restore is what was seen at the last commit point, a moment with no operation in progress; when all is quiet the home blocks are exactly that |
| LogProtocol.ReachableSafety | xv6/log.c:125-174 | in every reachable state: while a commit runs no operation is outstanding and none can record or end; listed blocks plus unspent reservations are at most LOGSIZE; a sleeper in begin_op has a commit or an operation to wake it; with LOGSIZE log blocks no operation within its reservation meets the "too big" panic |
| LogProtocol.BeginAdmits | xv6/log.c:125-141 | in every reachable state begin_op sleeps exactly when a commit runs or a whole reservation does not fit; an unused log always admits |
| LogProtocol.SleepersHaveReason | xv6/log.c:125-174 | in every reachable state whoever sleeps in begin_op could not be admitted |
| LogProtocol.AlwaysFits | xv6/log.c:213-233 | with LOGSIZE blocks in the log region the list fits it in every run |
| LogProtocol.Overflow | xv6/log.c:213-233 | with fewer, a run in which the list grows past the region |
| LogProtocol.FitsExactlyWhen | xv6/log.c:213-233 | the list stays inside the region in every run if and only if the region has LOGSIZE blocks |
| LogProgress.NeverStuck | xv6/log.c:125-233 | in every reachable state, with LOGSIZE blocks in the region: end_op's panic cannot fire, log_write panics exactly for a block already listed on a full list, a sleeper has a commit or an operation to wait for, a commit has one next step, and a starting machine can recover |
| LogProgress.WindingNears | xv6/log.c:145-202 | every step of an operation's end or of a commit brings the end of all of them nearer |
| LogProgress.WindsUp | xv6/log.c:145-202 | from every such state the operations under way can end in a commit; then nothing is logged, nobody sleeps in begin_op and the home blocks are what the file system saw |
| LogProgress.FitsWithoutRace | xv6/log.c:213-233 | whatever the size of the region, the list passes its end only if two processes stood between the size test and the record together |
| BufferCache.Unlink | xv6/bio.c:120-141 | the two assignments that take a buffer off the ring leave a ring of the others in the same order |
| BufferCache.Link | xv6/bio.c:38-56 | the four assignments that insert behind the head give a ring with that buffer first |
| BufferCache.InitRing | xv6/bio.c:38-56 | binit leaves every buffer on the ring once, the last one pushed first |
| BufferCache.WriteThrough | xv6/memide.c:38-60 | writing one disk block leaves every other clean valid buffer equal to its block |
| BufferCache.TakeRef | xv6/bio.c:61-93 | taking a reference on a cached block keeps the cache invariant |
| BufferCache.Recycle | xv6/bio.c:61-93 | renaming an unreferenced clean buffer to a block that is not cached keeps the cache invariant, in particular that no block is cached twice |
| BufferCache.DropRef | xv6/bio.c:120-141 | dropping a reference keeps the cache invariant and never goes below zero |
| BufferCache.ReleaseOrder | xv6/bio.c:120-141 | moving the released buffer to the front keeps the ring in order of last release |
| BufferCache.Cache.constructor | xv6/bio.c:38-56 | the initial cache satisfies the invariant with no valid, dirty or referenced buffer |
| BufferCache.Cache.AllOnRing | xv6/bio.c:38-56 | every buffer is on the ring |
| BufferCache.Cache.FindCached | xv6/bio.c:61-93 | the walk from the head finds the block's buffer if and only if it is cached |
| BufferCache.Cache.FindVictim | xv6/bio.c:61-93 | the walk from the tail finds the least recently released buffer that is neither referenced nor dirty, or there is none |
| BufferCache.Cache.BGet | xv6/bio.c:61-93 | the cached buffer gains a reference, or the least recently released eligible one is renamed; it fails exactly when the block is not cached and every buffer is referenced or dirty; no other buffer changes, and no block's contents |
| BufferCache.VictimExactlyWhen | xv6/bio.c:76-92 | while the blocks the log lists are the dirty ones, a buffer can be recycled if and only if there are more buffers than listed blocks and buffers held for other blocks |
| BufferCache.Cache.AcquireSleep | xv6/bio.c:61-93 | when the lock is granted the buffer still names the block asked for |
| BufferCache.Cache.IdeRW | xv6/memide.c:38-60 | a dirty buffer is written, an invalid one filled; afterwards buffer and disk block agree; the driver's panics exactly |
| BufferCache.Cache.BRead | xv6/bio.c:96-106 | a valid buffer, dirty ones included, is returned as it is; an invalid one gets its disk block |
| BufferCache.Cache.ReadBlock | xv6/bio.c:61-106 | bread gives what the block holds, the contents of its buffer if that is dirty and else the disk's, exactly if the disk has the block and it is cached or a buffer can be recycled; no block's contents change |
| BufferCache.ContentsKept | xv6/memide.c:38-60 | writing a dirty buffer out, filling or renaming a clean one leaves what every block holds |
| BufferCache.ContentsStored | xv6/log.c:231 | a store into a buffer that is dirty afterwards changes what its block holds and no other |
| BufferCache.Cache.Modify | xv6/bio.c:96-106 | a lock holder may store into the buffer without breaking the invariant; the block's contents change with it if the buffer is dirty |
| BufferCache.Cache.Pin | xv6/log.c:231 | marking a buffer dirty makes its data what the block holds, and changes no other block |
| BufferCache.Cache.BWrite | xv6/bio.c:109-116 | the disk block becomes the buffer's contents, the buffer is clean and no other block changes |
| BufferCache.Cache.ReleaseSleep | xv6/bio.c:120-141 | giving up the lock keeps clean unlocked buffers equal to their blocks, for holders that wrote or logged what they changed |
| BufferCache.Cache.Drop | xv6/bio.c:120-141 | one reference less; the last one moves the buffer to the front as the most recently released, otherwise the order is unchanged |
| FsLayout.GetPut | xv6/fs.c:372-400 | writing one word of an indirect block changes that entry and no other |
| FsLayout.WithBitUsed | xv6/fs.c:56-95 | setting or clearing the bit of one block changes that block's state and no other's, across bitmap blocks |
| FsOwner.AllocStep | xv6/fs.c:56-78 | giving a free block its bit and zeroing it keeps bitmap, ownership and contents consistent; the block is in no file |
| FsOwner.LinkDirect | xv6/fs.c:372-400 | entering a zeroed block in an inode gives it one owner and changes no file |
| FsOwner.LinkEntry | xv6/fs.c:372-400 | entering a block in the indirect block gives it one owner and changes no file |
| FsOwner.StoreStep | xv6/fs.c:481-511 | storing into a data block changes the bytes of that block of that file and of no other file |
| FsOwner.UnlinkDirect | xv6/fs.c:407-435 | emptying a direct entry of an emptied file leaves exactly that block to be freed |
| FsOwner.KillEntry | xv6/fs.c:407-435 | giving up an indirect entry without erasing it leaves exactly that block to be freed |
| FsOwner.DropIndirect | xv6/fs.c:407-435 | once its entries are given up the indirect block itself can be freed |
| FileSystem.FileSys.BAlloc | xv6/fs.c:42-78 | the first block whose bit is clear, zeroed, one bit changed, exactly the block and its bitmap block logged; it fails exactly when every block is in use |
| FileSystem.FileSys.BFree | xv6/fs.c:81-95 | one bit is cleared and nothing else changes |
| FileSystem.FileSys.EnsureAddr | xv6/fs.c:372-400 | an existing address is returned and nothing changes; otherwise the first free block, zeroed, is entered, and it and its bitmap block are logged; it fails exactly when none is free |
| FileSystem.FileSys.EnsureEntry | xv6/fs.c:372-400 | a missing indirect entry gets the first free block; exactly that block, its bitmap block and the indirect block are logged |
| FileSystem.FileSys.BMap | xv6/fs.c:372-400 | the block of file block bn; 0, 1 or 2 blocks are allocated, the first free ones, and it fails exactly when fewer are free; exactly those, their bitmap blocks and the indirect block that got an entry are logged; all contents unchanged |
| FileSystem.FileSys.ReadI | xv6/fs.c:452-476 | exactly the file's bytes from off, cut at its end; fails exactly for off past the end or wrap-around; changes nothing |
| FileSystem.FileSys.WriteChunk | xv6/fs.c:481-511 | one round of the loop overwrites or extends exactly its bytes of that file, logs exactly its blocks, and fails exactly when bmap does |
| FileSystem.FileSys.WriteI | xv6/fs.c:481-511 | exactly [off, off+n) of file i becomes the data, every other byte and file is unchanged; fails exactly for off past the end or a file too large; otherwise panics if and only if fewer blocks are free than the range lacks data blocks and indirect block; takes the first free ones; logs exactly WriteLogs, at most LogBound(off, n), and changes no other block |
| FileSystem.FileSys.SetSize | xv6/fs.c:506-509 | the inode on disk becomes the one in memory and its block is logged; no contents change |
| FileSystem.FileSys.WriteThenRead | xv6/fs.c:452-511 | readi after writei returns the data written, whenever writei neither failed nor panicked, and exactly when it does either |
| FileSystem.FileSys.AppendSpread | xv6/file.c:126-152 | appended to a file that ends inside its last direct block, has no indirect block, and whose next four blocks lie in four bitmap blocks, a chunk logs exactly MAXOPBLOCKS blocks and one block more logs more |
| FileSystem.FileSys.TruncEntries | xv6/fs.c:407-435 | every block listed in the indirect block is freed once |
| FileSystem.FileSys.ITrunc | xv6/fs.c:407-435 | the file is empty, exactly its blocks are free that were not, each freed once, and no other file loses one; exactly their bitmap blocks and the inode block are logged, and nothing that is not logged changes |
| FileSystem.FileSys.Truncate | xv6/fs.c:407-435 | as a transaction it fits the log if and only if the file's blocks lie in fewer than MAXOPBLOCKS bitmap blocks, which is always so with at most nine |
| FileSystem.FileSys.Transaction | xv6/file.c:126-152 | one begin_op, writei, end_op of at most a chunk logs at most MAXOPBLOCKS blocks, changes nothing it has not logged, and panics exactly when writei does |
| FileSystem.FileSys.FileWrite | xv6/file.c:117-156 | it writes all bytes, or whole chunks up to the size limit, or nothing when off is past the end, and succeeds exactly when the data fits; it panics if and only if fewer blocks are free than those bytes lack; each transaction logs at most MAXOPBLOCKS blocks; between transactions the file holds a whole number of chunks |
| FileSystem.ReadBack | xv6/fs.c:452-511 | after a write the range reads back as the data and everything outside it as before |
| FsCount.WriteLogsSize | xv6/file.c:126-152 | data, bitmap, indirect and inode blocks logged by one writei are at most LogBound(off, n) |
| FsCount.ChunkFits | xv6/file.c:126-152 | for every offset and every length up to the chunk the bound is at most MAXOPBLOCKS |
| FsCount.FreeTake | xv6/fs.c:56-78 | setting the bit of the first clear one takes it off the front of the list of free blocks |
| FsCount.FilledStep | xv6/fs.c:372-400 | mapping one more block of a range leaves the range mapped, with the next free blocks |
| FsCount.LogsStep | xv6/fs.c:481-511 | the rounds of the loop of writei together log the blocks of the range that are there, those taken with their bitmap blocks, and the indirect block if it got an entry |
| FsCount.NeedSplit | xv6/file.c:126-152 | two writes one behind the other take together what one write of both would take |
| FsCount.SmallDiskLogsLess | xv6/file.c:126-152 | with one bitmap block a chunk logs at most seven blocks |
| FsCount.ChunkIsTight | xv6/file.c:126-152 | with the next four free blocks in four bitmap blocks, and the file ending inside its last direct block, a chunk logs exactly MAXOPBLOCKS blocks and one block more logs more |
| FsExample.CoreHolds | xv6/fs.c:56-78 | a disk on which that is so: bitmap, inodes and files agree |
| FsExample.FiveFree | xv6/fs.c:56-78 | its free blocks are 4095, 4096, 12287, 12288 and 12289 |
| FsExample.AppendToShort | xv6/file.c:126-152 | writei on that disk logs exactly MAXOPBLOCKS blocks for a chunk, and more for one block more |
| FsCrash.Unlogged | xv6/log.c:213-233 | a block of the disk, inode block or other, that a transaction has not passed to log_write is the same after it |
| FsCrash.FilesAreDetermined | xv6/fs.c:452-476 | the home blocks determine the files |
| FsCrash.TransactionIsAtomic | xv6/log.c:69-202 | commit of a transaction cut after any write, recovery cut any number of times: the disk holds the state before it or the state after it |
| FsCrash.CommitEnds | xv6/log.c:192-202 | when commit returns the disk holds the state after the transaction and the log is empty |
| FsCrash.CrashInSession | xv6/log.c:69-202 | a power failure anywhere in a run of transactions: after recovery the files on disk are exactly those after t or t + 1 of them |
| FsCrash.CrashInFileWrite | xv6/file.c:126-152 | a power failure anywhere in filewrite: after recovery the file is the old one with a whole number of chunks written, and every other file is as it was |
| FsCrash.CrashInTruncate | xv6/fs.c:407-435 | a power failure anywhere in the commit of itrunc: after recovery the file is whole or empty, and every other file is as it was |
| FileSystem.SizeIsApart | xv6/fs.c:481-511 | changing the recorded size changes no block and no contents |
| KRHeap.InsertCorrect | xv6/umalloc.c:24-44 | inserting a freed block with coalescing keeps the list in address order with no two blocks adjacent, and the free units are the old ones and the block's |
| KRHeap.TakeCorrect | xv6/umalloc.c:63-90 | cutting a request off a block or unlinking it keeps the list ordered and disjoint from what was taken |
| KRHeap.TakeCovers | xv6/umalloc.c:63-90 | the units free before are those free after and those taken |
| KRHeap.AddLinks | xv6/umalloc.c:24-44 | the pointer assignments that join with the next block make the ring of the list with the block added |
| KRHeap.CoalesceLinks | xv6/umalloc.c:24-44 | the pointer assignments that join with the previous block make the ring of the coalesced list |
| KRHeap.TakeLinks | xv6/umalloc.c:63-90 | the assignments of malloc make the ring of the list without the taken units |
| KRHeap.StopsAt | xv6/umalloc.c:24-44 | the exit tests of free's search hold at the block after which the freed one belongs and at no other |
| KRHeap.FreeCorrect | xv6/umalloc.c:24-44 | free and live blocks stay disjoint and together make up what sbrk gave |
| KRHeap.AllocCorrect | xv6/umalloc.c:63-90 | the same for an allocation, whose block was not live |
| KRHeap.GrowCorrect | xv6/umalloc.c:46-61 | the same for a new region from sbrk |
| KRHeap.UnitsHold | xv6/umalloc.c:63-90 | in 32-bit arithmetic the units computed hold nbytes, and no fewer would, exactly when adding the rounding term does not wrap |
| KRHeap.Heap.FindPlace | xv6/umalloc.c:24-44 | the search ends within one pass of the ring, at the right block |
| KRHeap.Heap.Free | xv6/umalloc.c:24-44 | keeps the ring in address order and coalesced; exactly the block's units become free |
| KRHeap.Heap.MoreCore | xv6/umalloc.c:46-61 | sbrk is asked once; on success the region's units become free in a block large enough |
| KRHeap.Heap.TakeBlock | xv6/umalloc.c:63-90 | the block found becomes a live block of the requested size, cut from its end or unlinked |
| KRHeap.Heap.Malloc | xv6/umalloc.c:63-90 | the block is cut from the first one after freep that fits, it is new and holds nbytes, and freep moves in front of it; sbrk is asked, once, exactly when no free block fits, and then the search is made again with the new region; 0 exactly when sbrk is asked and fails |
| PageOwner.LinkKeeps | xv6/vm.c:60-80 | entering an unused frame in a free entry keeps page tables and owners in agreement |
| PageOwner.UnlinkKeeps | xv6/vm.c:255-279 | taking a user page out of its entry keeps them in agreement; the frame was that entry's |
| PageOwner.DetachKeeps | xv6/vm.c:283-298 | a directory without user pages can be given up with all its page tables |
| PageOwner.NoSharing | xv6/vm.c:35-80 | no frame is in two entries of any directories |
| PageView.LeafAt | xv6/vm.c:35-55 | a user page is present exactly when a frame is owned by that entry, and it is that frame |
| PageView.NewTableKeeps | xv6/vm.c:35-55 | a zeroed page table entered in a directory keeps owners in agreement and every other page in use as it was |
| PageView.NewTableView | xv6/vm.c:35-55 | a new page table maps nothing new and hides nothing |
| PageView.MapOneView | xv6/vm.c:60-80 | writing one entry changes what that page maps to and no other page of the directory |
| PageView.ClearedStep | xv6/vm.c:255-279 | freeing one present page extends the freed range by one and changes nothing else |
| PageView.ClearedSkip | xv6/vm.c:255-279 | skipping a stretch with no page present, such as a missing page table, misses no page |
| PageView.OtherView | xv6/vm.c:35-80 | what other directories map is untouched |
| PageView.Undo | xv6/vm.c:283-298 | freeing a directory that did not exist before restores every frame's owner |
| PageCopy.KmapApart | xv6/vm.c:105-115 | the four kernel ranges do not overlap, so mappages never meets a present entry |
| PageCopy.KernelMap | xv6/vm.c:105-115 | the kernel part of every address space: physical memory up to PHYSTOP frame by frame from KERNBASE on, devices at their own addresses, nothing else, no page open to user mode, exactly the text read-only |
| PageCount.PaidStep | xv6/vm.c:35-80 | one page more costs a frame exactly if its page table is missing; where none is left the whole range needs more than there were |
| PageCount.SpentStep | xv6/vm.c:221-249 | the same with a frame for each page |
| PageCount.FreshFrames | xv6/vm.c:315-345 | in a new directory the first n user pages take n frames and one for every 1024 |
| PageCopy.FailedKeepsTables | xv6/vm.c:221-249 | the only frames a failed allocuvm keeps are page tables of that directory |
| PageCopy.SourceStays | xv6/vm.c:315-345 | while a copy is made the source maps the same frames with the same contents |
| PageCopy.BornUndone | xv6/vm.c:315-345 | the failure path gives back all frames and leaves the contents of those in use |
| PageCopy.ReachesIsRoot | xv6/vm.c:283-298 | the frames found by walking a directory's tables are exactly those owned by it |
| PageCopy.DirectoriesApart | xv6/vm.c:35-80 | no frame is reached from two directories and none that is reached is free |
| PageCopy.PoolIsConstant | xv6/vm.c:221-298 | free frames and frames reached from the directory are together the same set before and after growing, freeing a range and freeing everything |
| PageTable.PushFree | xv6/kalloc.c:59-77 | a frame pushed on the list makes it one longer, still each free frame once |
| PageTable.PopFree | xv6/kalloc.c:82-95 | the head is a free frame and the rest of the list is the other free frames |
| PageTable.Machine.constructor | xv6/kalloc.c:31-44 | memory before kinit: nothing on the free list, page tables and owners in agreement |
| PageTable.Machine.KFree | xv6/kalloc.c:59-77 | the frame joins the free list, filled with junk but for the link in its first word; no other frame changes |
| PageTable.Machine.KAlloc | xv6/kalloc.c:82-95 | the first frame of the list leaves it; null exactly when there is none |
| PageTable.Machine.FreeRange | xv6/kalloc.c:46-53 | exactly the whole pages between the two addresses become free |
| PageTable.Machine.WalkPgdir | xv6/vm.c:35-55 | the page table of the page, made if asked for out of one free frame; it fails exactly when the table is missing and either none was asked for or no frame is free, and then changes nothing; what is mapped is unchanged |
| PageTable.Machine.MapPages | xv6/vm.c:60-80 | the pages of the range map the frames in order until a page table cannot be made; all other pages are as before; it succeeds exactly when as many frames are free as page tables are missing |
| PageTable.Machine.DeallocUvm | xv6/vm.c:255-279 | exactly the present pages of the range are freed and unmapped, missing page tables skipped |
| PageTable.Machine.FreeVm | xv6/vm.c:283-298 | every user page, page table and the directory become free, once each; no other owner and no contents in use change |
| PageTable.Machine.AddPage | xv6/vm.c:221-249 | a frame with the given contents is mapped at the page, or is left with the caller, or there was none; it succeeds exactly when a frame is free, or two where the page table is missing |
| PageTable.Machine.SetupKvm | xv6/vm.c:118-136 | a directory that maps exactly the kernel's table and nothing of user memory; it succeeds exactly when 65 frames are free and takes 65; failure leaves all owners as they were |
| PageTable.Machine.AllocUvm | xv6/vm.c:221-249 | the new pages are present, writable, zeroed and new, the others as before; it succeeds exactly when as many frames are free as the range has pages and lacks page tables, and takes that many; on failure the directory maps what it did and gained page tables only |
| PageTable.Machine.CopyUvm | xv6/vm.c:315-345 | every page below sz has the same bytes and flags in a frame that was free; it succeeds exactly when 65 frames, one for each page and one for every 1024 pages are free; failure leaves all owners and contents as they were |
| SleepLock.StepInv | xv6/sleeplock.c:22-42 | every interleaved step of acquiresleep, releasesleep, sleep and wakeup keeps the invariant |
| SleepLock.MoveOk | xv6/proc.c:417-474 | each step takes and drops the spinlocks where the code starts and stops holding them, and commits to sleep only with lk held and the lock taken |
| SleepLock.MutualExclusion | xv6/sleeplock.c:22-42 | over every run at most one process is inside; the lock is held exactly while one is; with the inner spinlock free a sleeper implies a held lock |
| SleepLock.EarlyLoses | xv6/proc.c:417-452 | if sleep released lk before taking ptable.lock, a run of two or more processes in which a wakeup is lost |
| SleepLock.OrderMatters | xv6/proc.c:417-452 | for any number of processes from two on, wakeups are never lost if and only if ptable.lock is taken first |
| SleepProgress.SomebodyMoves | xv6/sleeplock.c:22-42 | no deadlock: unless everybody is outside, somebody inside acquiresleep or releasesleep, or holding the lock, can take a step |
| SleepProgress.StepNears | xv6/sleeplock.c:22-42 | every such step, a wakeup of any number of sleepers included, lowers the bound on the steps to come |
| SleepProgress.EverybodyGetsIn | xv6/sleeplock.c:22-42 | from every reachable state, on every schedule without newcomers and kills: the steps are bounded, they stop only when everybody is outside, and everybody who was trying has had the lock |
| ProcTable.StepInv | xv6/proc.c:180-312 | every step of allocproc, fork, exit, wait, scheduling, sleep, wakeup and kill keeps the invariant: live parents, no sleeper in wait with a zombie child |
| ProcTable.ExitInv | xv6/proc.c:227-268 | exit hands its children to init and wakes whoever must see a zombie |
| ProcTable.WaitInv | xv6/proc.c:272-312 | a process goes to sleep in wait only when it has children and none is a zombie |
| ProcTable.WaitEnds | xv6/proc.c:272-312 | wait reaps exactly if there is a zombie child, returns -1 exactly if there is none and there is no child or the caller is killed, and sleeps exactly otherwise; what changes in each case |
| ProcTable.ExitEach | xv6/proc.c:227-268 | exactly what exit does to each entry of the table |
| ProcTable.LifeCycle | xv6/proc.c:73-495 | the changes of state a process goes through, and for each step exactly which processes it changes |
| ProcTable.ForkMakesChild | xv6/proc.c:180-222 | the first free entry becomes a runnable child of the caller with a pid that no entry has |
| ProcTable.AllocTakesFirst | xv6/proc.c:73-90 | allocproc has an entry to take exactly if one is unused, and only one that it can take |
| ProcTable.ForkFailUndone | xv6/proc.c:187-197 | a fork without memory leaves the table as it was but for an unused pid |
| ProcTable.ForkExitWait | xv6/proc.c:180-312 | fork, exit of the child and wait can follow each other, and leave the table as it was with the entry free |
| ProcTable.YieldUndoesSchedule | xv6/proc.c:322-394 | yield gives back what the scheduler gave, and only a process that runs can yield |
| ProcTable.BootedStarts | xv6/proc.c:120-153 | the table after userinit is one that the runs start from, and init can fork |
| ProcTable.SleepsUntilWoken | xv6/proc.c:417-475 | who sleeps on an address is woken by a wakeup on it or a kill and by nothing else |
| ProcTable.KilledStays | xv6/proc.c:479-499 | a live process is killed by kill and by nothing else and stays so, kill wakes its target, and a killed process never sleeps in wait |
| ProcTable.PidsAreUnique | xv6/proc.c:73-116 | over every run entries in use have different pids |
| ProcTable.RunInv | xv6/proc.c:180-312 | the invariant holds in every state of every run from boot |
| ProcTable.ZombiesAreReapable | xv6/proc.c:227-312 | over every run an exited process has a live parent that is not asleep in wait, and that parent's next wait reaps a zombie child |
| ProcTable.Ptable.WakeupChan | xv6/proc.c:457-465 | exactly the processes asleep on the channel become runnable |
| ProcTable.Ptable.PassChildren | xv6/proc.c:227-268 | the loop gives every child to init and wakes init exactly if one is a zombie |
| ProcTable.Ptable.ExitProc | xv6/proc.c:227-268 | the table becomes what the exit step of the state machine says |
| ProcTable.Ptable.WaitRound | xv6/proc.c:272-312 | one round of the loop reaps the first zombie child; sleeps exactly when there are children, none a zombie, and the caller is not killed; returns -1 exactly in the other cases without a zombie child |
| ProcTable.Ptable.FindUnused | xv6/proc.c:73-116 | the first unused entry, or none is unused |
| Pipe.StepInv | xv6/pipe.c:59-121 | every section under p->lock keeps "sleeping reader implies empty and open, sleeping writer implies full and open", except exactly the early return of a killed or abandoned writer that stored something for a sleeping reader |
| Pipe.RunSafe | xv6/pipe.c:59-121 | over every run without such a return: bytes stored are bytes delivered followed by the ring's contents, at most PIPESIZE of them, and readers and writers never sleep together |
| Pipe.NoKillNoLoss | xv6/pipe.c:78-98 | without a kill no section loses a wakeup |
| Pipe.KilledWriterLosesWakeup | xv6/pipe.c:78-98 | a run in which a killed writer leaves a reader asleep beside a full pipe |
| Pipe.WriteStores | xv6/pipe.c:78-98 | a section of pipewrite stores all the rest if it fits and otherwise what fits, sleeps or returns -1 exactly as the open flag and the kill say, and goes on at the first byte not stored |
| Pipe.ReadDelivers | xv6/pipe.c:100-121 | piperead returns the number of bytes it delivers, the oldest ones; it sleeps exactly beside an empty pipe open for writing |
| Pipe.CloseEnds | xv6/pipe.c:59-75 | with the write end closed readers never sleep and an empty pipe reads as its end; with the read end closed writers never sleep |
| Pipe.SleepersAfter | xv6/pipe.c:59-121 | exactly who sleeps after each section, close or kill |
| Pipe.TurnOk | xv6/pipe.c:78-98 | every section of every call keeps: each call has stored exactly its first bytes, once and in order, and nothing else is in the pipe |
| Pipe.CallsStoreOnce | xv6/pipe.c:78-98 | over every run the sections of a call, each entered where the last one slept, together store its bytes once and in order, all of them if it returns n |
| Pipe.HistoryIsRun | xv6/pipe.c:59-121 | the pipe under whole calls goes through a run of the state machine, so that what holds over runs holds of it |
| Pipe.Wrapped | xv6/pipe.c:78-121 | 32-bit wrapped counters tell full from empty from the rest and index the ring as the true counts would |
| Pipe.Buffer.PipeWrite | xv6/pipe.c:78-98 | stores bytes in order until done, full or abandoned, as the section of the state machine says; if it sleeps at byte k it has stored the bytes before k, and if it returns n all of them |
| Pipe.Buffer.PipeRead | xv6/pipe.c:100-121 | delivers the oldest bytes, at most n, and returns their number, or sleeps, as the section of the state machine says |
| Pipe.Buffer.Drain | xv6/pipe.c:100-121 | the copy loop delivers exactly the first min(n, available) bytes |
| Pipe.Buffer.PipeClose | xv6/pipe.c:59-75 | closes one end and wakes those who wait for the other |
| ShellLexer.GetToken | xv6/sh.c:240-283 | tokens start and end in order, the next one starts without white space, only the end of the line gives no progress, and a word token is a whole word |
| ShellLexer.RunGetToken | xv6/sh.c:240-283 | the loops compute that token |
| ShellLexer.RunPeek | xv6/sh.c:285-295 | the cursor moves over white space and the answer is whether the next token is of the kinds given |
| ShellParser.RedirsSound | xv6/sh.c:349-372 | file names are whole words of the line, with the mode and descriptor of their operator |
| ShellParser.ArgsSound | xv6/sh.c:390-421 | arguments are whole words of the line, at most nine |
| ShellParser.ParseCmd | xv6/sh.c:302-317 | whatever parses, every word in the tree is a whole word of the line and every limit is kept |
| ShellParser.RunParseRedirs | xv6/sh.c:349-372 | the loop computes the redirections or the panic |
| ShellParser.RunParseArgs | xv6/sh.c:390-421 | the loop computes arguments and redirections or the panic |
| ShellParser.RunParseExec | xv6/sh.c:390-421 | a block, or a simple command with its redirections around it |
| ShellParser.RunParseBlock | xv6/sh.c:374-388 | the line between parentheses with its redirections, or the panic |
| ShellParser.RunParsePipe | xv6/sh.c:336-347 | pipelines nest to the right |
| ShellParser.RunParseLine | xv6/sh.c:319-334 | "&" applies to the pipeline before it, ";" nests to the right; ends because the rest of the line gets shorter |
| ShellGrammar.TokensTile | xv6/sh.c:240-283 | for every line, the tokens' texts and the white space between them, in order, make up the line |
| ShellGrammar.TokensUnique | xv6/sh.c:240-283 | no other tokens do |
| ShellGrammar.EveryCharacterOnce | xv6/sh.c:240-283 | every character that is no white space lies in exactly one token, and white space in none |
| ShellGrammar.ParserIsGrammar | xv6/sh.c:302-421 | for every line and tree, parsecmd gives that tree if and only if a grammar over the tokens, stated without the parser, does |
| ShellGrammar.AcceptsExactly | xv6/sh.c:302-421 | parsecmd succeeds exactly on the lines of the grammar |
| ShellPrinter.ArgsOk | xv6/sh.c:390-421 | words followed by redirections parse to those words and redirections |
| ShellPrinter.ExecOk | xv6/sh.c:374-421 | the text of a command in argument position parses to that command |
| ShellPrinter.PipeOk | xv6/sh.c:336-347 | the same for a pipeline |
| ShellPrinter.LineOk | xv6/sh.c:319-334 | the same for a line |
| ShellPrinter.RenderLexes | xv6/sh.c:240-283 | rendered tokens are read back one by one |
| ShellPrinter.ParsePrint | xv6/sh.c:240-421 | for every well-formed tree, printing with parentheses only where a level needs them and parsing gives back the same tree |
| ShellPrinter.ParsedIsWellFormed | xv6/sh.c:302-421 | whatever parses is well formed |
| ShellPrinter.ReparseIsStable | xv6/sh.c:302-421 | for every line that parses, printing its tree and parsing again gives the same tree |
| ShellTerminate.EndsOutsideWords | xv6/sh.c:424-468 | no terminator of any word of a parsed command lies inside any of its words |
| ShellTerminate.NulTerminate | xv6/sh.c:424-468 | a NUL is written behind every word and nothing else changes |
| ShellTerminate.WordsReadBack | xv6/sh.c:424-468 | afterwards every word read as a C string is its slice of the line |
| ShellTerminate.ParseBuffer | xv6/sh.c:302-317 | parsecmd on a buffer: the tree of the line, each word then a C string of the buffer; the buffer is unchanged if it panics |
| Grep.LangIsInLanguage | xv6/grep.c:72-106 | the recursive reading of a pattern and the one by cutting the text into pieces agree |
| Grep.MatchStarCorrect | xv6/grep.c:99-106 | matchstar succeeds exactly if the rest matches after some number of accepted characters |
| Grep.MatchHereCorrect | xv6/grep.c:85-96 | matchhere succeeds exactly if some beginning of the text is in the pattern's language |
| Grep.MatchCorrect | xv6/grep.c:72-106 | match succeeds exactly if some piece of the text, respecting ^ and $, is in the language of the pattern |
| Grep.RunMatchHere | xv6/grep.c:85-96 | the code computes it and ends: pattern, then text, get shorter |
| Grep.RunMatchStar | xv6/grep.c:99-106 | the do-while loop computes it |
| Grep.RunMatch | xv6/grep.c:72-82 | the do-while loop of match decides the declarative semantics |
| PagingSim.MinSlot | lab-07/sim.c:142-148 | the victim search finds the smallest counter below NUM_MAX, or nothing |
| PagingSim.VictimIsOldest | lab-07/sim.c:142-160 | the slot found is that of the oldest resident page, and the second loop finds the same slot |
| PagingSim.LruMeaning | lab-07/sim.c:173-205 | under LRU the time of a resident page is its last access, and every other accessed page was last accessed before all resident ones |
| PagingSim.FifoMeaning | lab-07/sim.c:140-172 | under FIFO the time of a resident page is when it was loaded, and it has been resident since |
| PagingSim.HitStep | lab-07/sim.c:102-110 | an access to a resident page keeps the invariant for the longer history |
| PagingSim.FillStep | lab-07/sim.c:121-136 | the same for a new page with a slot free |
| PagingSim.EvictStep | lab-07/sim.c:137-207 | the same for a new page when primary memory is full |
| PagingSim.SwapStep | lab-07/sim.c:208-282 | the same for a page found in secondary memory |
| PagingSim.CreateKeeps | lab-07/sim.c:43-52 | a new row starts at -1 and disturbs nothing |
| PagingSim.RunRefines | lab-07/sim.c:294-366 | after every run the memories and page tables agree with the history of accesses |
| PagingSim.PlaceOfPage | lab-07/sim.c:96-287 | after every run a page is in a slot exactly if it was accessed, in one slot only, its entry is that slot, and entries of other pages of existing processes are -1 |
| PagingSim.EvictsOldest | lab-07/sim.c:137-282 | an access that needs a victim moves the oldest resident page, and only it, to secondary memory |
| PagingSim.FailsAtMax | lab-07/sim.c:137-282 | with every resident counter at NUM_MAX or more, a value of the uninitialised victim variable for which memories and history disagree |
| PagingSim.RightExactlyWhen | lab-07/sim.c:137-282 | an access that needs a victim is right whatever that variable held if and only if some resident counter is below NUM_MAX |
| PagingSim.StuckAboveMax | lab-07/sim.c:137-282 | with every resident counter above NUM_MAX the access is wrong whatever that variable held |
| PagingLimit.LimitIsReached | lab-07/sim.c:173-205 | a run with -l (one page 1002 times, then seven others) after which the next new page is handled wrongly, whatever the victim variable held |
| PagingLimit.FifoLimitIsReached | lab-07/sim.c:208-247 | a run with -f (nine pages, then always the one in secondary memory) after which the next access is handled wrongly for a value of that variable |
| PagingRun.SearchVictim | lab-07/sim.c:142-148 | the loop computes the smallest counter and its slot's contents |
| PagingRun.Simulator.constructor | lab-07/sim.c:318-326 | the initial arrays satisfy the invariant for the empty history |
| PagingRun.Simulator.ModifyProcess | lab-07/sim.c:96-287 | the searches and updates on the arrays take the branch and make the changes of the value model, and keep the invariant |
| PagingRun.Simulator.CreateProcess | lab-07/sim.c:43-52 | the row is made exactly if no row has the pid |
| PagingRun.Simulator.Step | lab-07/sim.c:330-363 | one access by main keeps the invariant for the longer history; the run ends exactly when the last secondary slot is used |

## Left out

- Hardware, boot and context switch (ide.c, lapic.c, ioapic.c, mp.c, uart.c, kbd.c, bootmain.c, every
  .S file): register access, not algorithms. `xv6/memide.c` is the disk.
- x86 memory ordering and spinlocks: acquire and release are atomic steps, and code under one lock is
  one step of a state machine.
- `xv6/log.c` and `xv6/proc.c` as concurrent code: the interleavings are state machines on values;
  `LogDevice.Log` and `ProcTable.Ptable` are the loops of one process at a time. Aliasing between
  processes is in the state machines only.
- LogProtocol.CrashSafety: only runs whose block list stays inside the log region; `AlwaysFits` and
  `FitsExactlyWhen` say when all do. What commit does with a longer list is not modelled: with NBUF
  equal to LOGSIZE it would first meet the panic of bget, as `BufferCache.VictimExactlyWhen` shows.
- LogDevice.Log.LogWrite: the panic for a call outside a transaction is a guard of the state machine,
  not of this method.
- BufferCache.Cache.BGet: the sleep between taking the reference and getting the lock is two methods,
  `BGet` and `AcquireSleep`, with any other call allowed in between. A process that already
  refers to the buffer does not ask for it again.
- Inodes on disk: typed records instead of bytes in inode blocks; iupdate is an assignment. ialloc,
  iget, iput, device inodes, link counts, directories and path lookup are not modelled.
- FileSystem.FileSys.constructor: any image whose bitmap, inodes and files agree; that mkfs makes one
  is assumed.
- FileSystem.FileSys.FileWrite: no other process writes between the transactions, although iunlock and
  end_op stand between the chunks (`xv6/file.c:144-145`).
- FsCrash.CrashInSession: one transaction at a time; several in one commit are in `LogProtocol` only.
  Inodes lie in inode blocks word by word.
- KRHeap.Heap.Malloc: sbrk is a parameter that gives a region above all earlier ones or fails, and
  requests are below 2 GB, so that the size computation in morecore does not wrap.
- sbrk and growproc as callers of `xv6/vm.c`; inituvm, loaduvm, clearpteu, uva2ka and copyout.
- PageTable.Machine.MapPages: physical addresses are page aligned, as at all its calls; user and
  kernel pages are not mixed in one call.
- PageTable.Machine.DeallocUvm: sizes up to KERNBASE; beyond it the code would free kernel mappings.
- PageTable.Machine.SetupKvm: the symbol `data` of the linker script is a parameter on a page boundary.
- 32-bit overflow of pids and of the outstanding counter; a negative length passed to piperead.
- Pipe.RunSafe: processes that are not killed while they hold stored bytes back from a reader; the
  exact condition is in `StepInv`.
- ShellTerminate.ParseBuffer: the line has no NUL inside, as strlen guarantees; runcmd, getcmd and
  the heap allocation of nodes are not modelled; while parseexec runs, the exec node and the
  redirections around it are kept apart instead of being one mutable tree.
- ShellParser.RunParseExec: ">>" gives the same node as ">", as in the code, although the shell's
  users may expect appending.
- grep's line buffering, which discards a partial line when a read holds no newline.
- PagingRun.Simulator.Step: process ids 1 to 99 and pages 1 to 16; the code does not check the rest.
  Reading numbers, the report and the signal handler are not modelled.
- PagingSim.SetEntry: writing an entry outside the tables, which only garbage in the victim variable
  can cause, is skipped.
- Labs 1 to 6 and 8, the user utilities and the remaining kernel files: small programs and tables
  whose properties can be read off one function.
