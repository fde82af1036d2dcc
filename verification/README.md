# A verified model of the xv6 storage stack, schedulers, memory and shell parser

This project models, in Dafny, the parts of this xv6 derivative whose correctness depends on several functions
and on every order in which they can happen, and proves what they promise. `dafny verify dfyconfig.toml`
checks all of it.

- **Storage.** The write-ahead log as a list of disk writes that a crash may cut anywhere, during recovery too
  (`Log.dfy`); the reservation protocol of begin_op, log_write and end_op (`LogSpace.dfy`); the buffer cache as a
  state machine of all processes (`BufCache.dfy`) and as bio.c's doubly linked ring (`BufRing.dfy`); commit and
  recovery through that cache, next to readers that hold buffers (`LogCommit.dfy`), and a run on which commit panics
  (`CacheFull.dfy`); block allocation, block maps, reading, writing and truncation over on-disk bytes (`FsCodec.dfy`,
  `FsState.dfy`, `FsOps.dfy`) with the exact number of blocks they take (`FsSpace.dfy`), and the disk format in plain
  arithmetic on bytes (`FsFormat.dfy`); fileread, filewrite and
  histories of operations (`FsFiles.dfy`); every change that many processes make to one block at a time, interleaved,
  with the states inside balloc and itrunc (`FsRuns.dfy`); and operations, their log_writes, the commit, a crash and
  the recovery put together (`StorageStack.dfy`).
- **MLFQ scheduler.** Every ptable.lock critical section as one step of a state machine with its invariant
  (`Mlfq.dfy`); queue.c's linked lists in the fixed node pool (`MlfqNodes.dfy`); proc.c, queue.c and trap.c as code
  on arrays proved to take those steps (`MlfqKernel.dfy`); statements about all runs (`MlfqRuns.dfy`); whom wakeup, kill
  and exit wake, wait, and pids (`MlfqWakeups.dfy`).
- **PBS scheduler** (`Pbs.dfy`): selection and fairness.
- **User allocator.** The free list and its four kinds of free, over any sequence of calls (`Heap.dfy`), and that the
  blocks in use decide it (`HeapShape.dfy`); umalloc.c
  on its pointers, with 32-bit sizes and what sbrk gives for them (`Umalloc.dfy`).
- **Page tables.** Physical pages with one owner each, and what every change of a list or a table keeps
  (`Pages.dfy`); kalloc.c and vm.c as code on pages (`Vm.dfy`); growproc, fork, exec and wait (`Spaces.dfy`).
- **Pipe** (`Pipe.dfy`): the ring with wrapping counters, and sleep and wakeup over all interleavings.
- **Shell parser.** Tokens (`ShellLex.dfy`), the grammar with a token parser that is sound and complete for it
  (`ShellGrammar.dfy`), the commands its trees stand for (`ShellCmd.dfy`), the same commands read off the characters of
  the line (`ShellLayout.dfy`), and sh.c's parser on the character buffer, proved to agree with both (`Shell.dfy`).

`Blocks.dfy`, `Params.dfy` and `Procs.dfy` hold what several of these share.

Code that changes things in place is a class whose methods are proved against functions or steps on values; the
theorems about runs are stated on those. A panic is a result, and contracts say when it happens. Predicates named
`...Behind` are the contents of the predicate named without that word, folded so that proofs that only hand it on
need not look inside. A block, a lock-protected critical section or a page-table entry changes atomically.

## Model

| member | source | states |
|---|---|---|
| `RedoLog.ApplyAt` | log.c:70-82 | a block that a list of writes touches ends up the same whatever the disk held before; one it does not touch stays |
| `RedoLog.ReapplyPrefix` | log.c:70-82 | redo is idempotent: doing any prefix of the writes first does not change where all of them lead |
| `RedoLog.RecoverInstalls` | log.c:70-122 | recovery from a header that names a batch leaves every home block as installing that batch would |
| `RedoLog.RecoverLeavesClean` | log.c:116-122 | after recovery the header on disk is empty |
| `RedoLog.RecoveryRestarts` | log.c:70-122 | a recovery cut after any number of its writes can start over and reaches the same home blocks |
| `RedoLog.CutRecoveriesRestart` | log.c:116-122 | the same for any number of cut recoveries in a row |
| `RedoLog.InstalledContents` | log.c:70-82 | installed means every entry at its home and every other block as before |
| `RedoLog.CommittedLog` | log.c:178-202 | once the header write is done the log on disk holds exactly the transaction, and what commit has still to write is what recovery would write |
| `RedoLog.BatchInLog` | log.c:86-96 | a header naming the blocks and slots holding the data read back as the transaction |
| `RedoLog.CommitIsAtomic` | log.c:178-202 | cut after any write, recovery leaves all home blocks old, or all new exactly when the header write was among them |
| `RedoLog.EventIsAtomic` | log.c:70-202 | one commit, with a crash anywhere in it and any number of cut recoveries, has the effect of the whole transaction or none |
| `RedoLog.HistoryIsAtomic` | log.c:70-202 | over every history of commits, crashes and cut recoveries the home blocks are those of the transactions whose header write reached the disk, whole and in order |
| `LogSpace.StepKeepsInv` | log.c:126-233 | begin_op, log_write, end_op and the end of commit keep the reservation invariant |
| `LogSpace.RunKeepsInv` | log.c:126-233 | so does every interleaving of them |
| `LogSpace.ReservationIsSafe` | log.c:126-174 | in every reachable state the logged blocks plus what running operations may still add are at most LOGSIZE, end_op does not panic, and whoever sleeps in begin_op has someone to wake them |
| `LogSpace.WhenAdmitted` | log.c:126-141 | in every reachable state begin_op admits exactly when no commit runs and the logged blocks leave ten more for each operation under way and for this one; else it sleeps |
| `LogSpace.WhenCommits` | log.c:146-163 | end_op starts the commit exactly when no other operation is under way, and otherwise wakes everybody who sleeps |
| `LogSpace.AfterCommit` | log.c:165-173 | after a commit the log is empty, nobody sleeps, and whoever comes first is admitted |
| `LogSpace.WhenLogWritePanics` | log.c:214-233 | on an operation within its promise log_write panics exactly when the log holds LOGSIZE blocks or log.size - 1; with log.size above LOGSIZE a new promised block always fits |
| `LogSpace.PromisedBlockCanPanic` | mkfs.c:25 | with log.size as mkfs sets it, a run in which an operation with budget left panics on a new block |
| `LogSpace.AbsorbedWriteCanPanic` | log.c:218-219 | with a larger log, too, a run in which a write of an already logged block panics |
| `LogSpace.Log.constructor` | log.c:54-66 | starts in the initial state of the protocol |
| `LogSpace.Log.BeginOp` | log.c:126-141 | one turn of the loop is the protocol's Begin step; it admits exactly when no commit runs and n plus ten blocks per operation, this one included, is at most LOGSIZE |
| `LogSpace.Log.LogWrite` | log.c:214-233 | the absorption scan is the protocol's LogWrite step: the number is added unless it is there; fails exactly when the log holds LOGSIZE blocks or log.size - 1 |
| `LogSpace.Log.EndOp` | log.c:146-163 | is the protocol's End step; commits exactly when the last operation ends |
| `LogSpace.Log.FinishCommit` | log.c:165-173 | is the protocol's CommitDone step, which wakes all sleepers |
| `BufCache.VictimIsUnused` | bio.c:81-92 | the second scan of bget finds a clean unreferenced buffer exactly when there is one |
| `BufCache.VictimIsOldest` | bio.c:81-91 | and nothing behind it in the list is |
| `BufCache.GetTakesOne` | bio.c:62-93 | bget returns the buffer of the block with one reference more, or a recycled one with one reference and nothing valid in it; no other buffer changes |
| `BufCache.DropMovesToFront` | bio.c:128-140 | brelse drops one reference, and with the last one moves the buffer to the front of the list, the others in their order |
| `BufCache.ListedByRelease` | bio.c:121-141 | in every reachable state the list is in the order of the times of last release, latest first |
| `BufCache.RecyclesOldest` | bio.c:81-91 | so the buffer that bget recycles in any reachable state is, of all clean unreferenced ones, the one released longest ago |
| `BufCache.GetPanicsWhen` | bio.c:62-93 | bget panics exactly when the block is not cached and every buffer is referenced or dirty |
| `BufCache.GotKeepsInv` | bio.c:62-93 | bget, with or without recycling, keeps the cache invariant |
| `BufCache.ToFrontKeeps` | bio.c:129-138 | moving a released buffer to the front keeps the list a permutation of all buffers, the others in order |
| `BufCache.StepKeepsInv` | bio.c:62-141 | every step of any process on the cache, and every step of commit, keeps the invariant |
| `BufCache.RunKeepsInv` | bio.c:62-141 | so does every interleaving |
| `BufCache.ReachableCache` | bio.c:62-141 | in every reachable state no two buffers cache one block, an unlocked buffer is dirty exactly when its block is logged, a valid unlocked one holds the block as last written, and a clean one equals the disk |
| `BufCache.ReadSeesLastWrite` | bio.c:97-106 | bread gives the last written contents, cached or not |
| `BufCache.LogWriteRecords` | log.c:214-233 | what the holder put in a buffer before log_write is from then on the contents of its block, pinned and in the header; no other block changes |
| `BufCache.RecyclingLosesNothing` | bio.c:81-91 | recycling changes neither disk nor store nor pins; a block leaves the cache only if the disk has it; a pinned block stays, with its data |
| `BufRing.Unlink` | bio.c:132-133 | the first two pointer stores of brelse take one buffer out of the doubly linked ring |
| `BufRing.LinkFront` | bio.c:134-137 | the next four put it right behind the head |
| `BufRing.BufferCache.constructor` | bio.c:39-56 | links all buffers and starts in the boot state |
| `BufRing.BufferCache.FindBlock` | bio.c:69-76 | the walk along next finds the buffer of a block exactly when it is cached |
| `BufRing.BufferCache.FindVictim` | bio.c:81-91 | the walk along prev finds the least recently used clean unreferenced buffer, or none |
| `BufRing.BufferCache.Bget` | bio.c:62-93 | is the cache's Get step, and fails exactly where that panics |
| `BufRing.BufferCache.Acquire` | bio.c:70-75 | is the Lock step |
| `BufRing.BufferCache.Load` | bio.c:97-106 | is the Fill step |
| `BufRing.BufferCache.Log` | log.c:214-233 | is the LogWrite step: the number recorded once, the buffer pinned |
| `BufRing.BufferCache.StartWrite` | bio.c:110-116 | is the WriteStart step |
| `BufRing.BufferCache.EndWrite` | bio.c:110-116 | is the WriteEnd step, and adds one write to the disk trace |
| `BufRing.BufferCache.Leave` | bio.c:121-126 | is the Unlock step |
| `BufRing.BufferCache.Relink` | bio.c:132-137 | the pointer stores give the order with that buffer in front, threaded both ways |
| `BufRing.BufferCache.Put` | bio.c:128-140 | is the Drop step: the pointer stores happen exactly with the last reference |
| `LogCommit.RoomIs` | bio.c:81-92 | write_log finds a buffer for a log block exactly when fewer than NBUF buffers are pinned or referenced |
| `LogCommit.TakenAlone` | bio.c:81-92 | with nobody else around, those are as many as the pinned blocks |
| `LogCommit.LogBlockPanics` | log.c:178-190 | bget of a log block panics exactly when there is no room |
| `CacheFull.CommitCanPanic` | bio.c:81-92 | a run from boot, with 29 logged blocks and one reader of another block, to a state that commit starts from and in which bget of every log block panics |
| `LogCommit.ReadersChangeNothing` | bio.c:62-141 | whatever readers do, in any order, during commit too, disk, store, pins, header and the cache invariant stay |
| `LogCommit.CopyToLog` | log.c:182-189 | one turn of write_log: one disk write, of the cached contents, to the slot; fails exactly without room |
| `LogCommit.CopyHome` | log.c:74-81 | one turn of install_trans: one disk write, of the slot's contents, to the home block; never fails once there was room |
| `LogCommit.FillHeader` | log.c:107-110 | the loop of write_head gives the header block of the logged numbers |
| `LogCommit.HeaderEntries` | log.c:91-94 | the loop of read_head reads those numbers back |
| `LogCommit.CommitLog.WriteLog` | log.c:178-190 | the disk sees exactly the slot writes of the transaction, with other processes' buffers referenced all along |
| `LogCommit.CommitLog.WriteHead` | log.c:102-113 | one write of the header naming the logged blocks |
| `LogCommit.CommitLog.InstallTrans` | log.c:70-82 | the disk sees exactly the home writes; what was pinned no longer is |
| `LogCommit.CommitLog.WriteTransaction` | log.c:195-197 | up to the commit point: slot writes, then the header |
| `LogCommit.CommitLog.CommitSome` | log.c:195-200 | the same when something is logged, with the exact condition of the panic |
| `LogCommit.CommitLog.Commit` | log.c:193-202 | the disk sees exactly the commit sequence whose every prefix recovers; afterwards nothing is pinned and the disk holds the store; it panics exactly when something is logged and every buffer is pinned or referenced |
| `LogCommit.CommitLog.ReadHead` | log.c:86-96 | the header in memory is the one on disk |
| `LogCommit.CommitLog.RecoverFromLog` | log.c:116-122 | the disk sees exactly the recovery writes and ends up recovered |
| `LogCommit.InstalledIsStore` | log.c:70-82 | installing the logged blocks makes the disk equal the store of last written contents |
| `LogCommit.CrashSeesStore` | log.c:193-202 | cut commit anywhere and recover: every home block is as the disk had it, or every one as the cache had it |
| `FsCodec.SetBitAt` | fs.c:66-68 | the byte and mask arithmetic of balloc sets that bit of the free map and no other |
| `FsCodec.ClearBitAt` | fs.c:88-92 | that of bfree clears that bit and no other |
| `FsCodec.DecodeEncode` | fs.h:29-36 | the 64 bytes of a disk inode read back as the inode |
| `FsCodec.InodeRoundTrip` | fs.c:221-236 | iupdate then ilock gives the inode back |
| `FsCodec.InodeNeighbour` | fs.c:221-236 | and leaves the other inodes of the block alone |
| `FsFormat.WordBytes` | fs.h:29-36 | a number on disk is its four bytes, least significant first |
| `FsFormat.MapBitIs` | fs.c:65-66 | block b is marked exactly when bit b % 8 of byte b / 8 of the free map is 1, in integer arithmetic |
| `FsFormat.MapBytes` | fs.c:66-67 | marking adds 2 to the power of b % 8 to that byte if the bit was 0 and changes no other byte; freeing takes it off |
| `FsFormat.AllocatedBytes` | fs.c:67-70 | after balloc the block is marked and all zero, no other mark and no block outside the map changes |
| `FsFormat.InodeBytes` | fs.h:29-36 | inode i is at byte 64 * (i % 8) of block inodestart + i / 8: four shorts, the size, thirteen block numbers |
| `FsFormat.PutInodeBytes` | fs.c:221-236 | iupdate writes those 64 bytes and no others |
| `FsFormat.DataBlockIs` | fs.c:373-400 | block n of a file is number n of the inode, or, from 12 on, word n - 12 of the block that number 12 names |
| `FsFormat.FileOnDisk` | fs.c:453-476 | the size and every byte of a file, read off the disk byte by byte |
| `FsFormat.LogOnDisk` | log.c:86-96 | the transaction in the log: its length, its home blocks and its contents, read off the disk byte by byte |
| `FsFormat.HeaderBytes` | log.c:102-113 | the bytes that write_head writes |
| `FsState.OneOwner` | fs.c:57-95 | no two pointers of any inodes name one block, every pointer names a marked data block, and every marked data block has a pointer |
| `FsState.TakeKeepsOwned` | fs.c:373-400 | giving a free block to an empty pointer keeps that |
| `FsState.TakeOnDisk` | fs.c:373-400 | and the tables on disk say so, but for the inode in memory |
| `FsState.WriteStep` | fs.c:498-504 | one turn of writei extends the written range by its bytes and disturbs no other byte of any file |
| `FsState.WrittenContents` | fs.c:482-511 | the file is then the old bytes with the new ones laid over them at the offset, without holes |
| `FsState.WrittenOthers` | fs.c:482-511 | and no other file changed |
| `FsState.UpdatedOnDisk` | fs.c:221-236 | iupdate brings the last inode to disk |
| `FsState.NextTurn` | fs.c:408-435 | itrunc meets each block of the inode once, and it is still marked |
| `FsState.TruncatedKeepsOwned` | fs.c:408-435 | itrunc frees exactly the blocks of its inode and keeps one pointer per marked block |
| `FsState.TruncatedOthers` | fs.c:408-435 | the other files read as before |
| `FsSpace.CountAfter` | fs.c:57-78 | balloc finds a block exactly when the count of unmarked blocks is positive, and takes one off it |
| `FsSpace.SuppliedNext` | fs.c:373-400 | when bmap supplies one more block at its cost, the fresh blocks of the whole range so far are exactly those it needed: one for each missing block, one for a missing indirect block |
| `FsSpace.SuppliedShort` | fs.c:373-400 | if one block of a range cannot be supplied any more, the unmarked blocks were too few for the whole range from the start |
| `FsSpace.NeededThen` | file.c:134-152 | two adjacent writes need together exactly what one write of both pieces needs |
| `FsOps.FindClear` | fs.c:65-74 | the inner loop of balloc finds the first clear bit |
| `FsOps.MarksRead` | fs.c:65-66 | the decoded free map is the bits on disk |
| `FsOps.FileSystem.ScanRow` | fs.c:65-74 | one free-map block of the search, the last one cut at the size of the disk |
| `FsOps.FileSystem.FindFree` | fs.c:62-76 | the search over all free-map blocks finds the lowest unmarked block, or every block is marked |
| `FsOps.FileSystem.MarkAndZero` | fs.c:67-70 | the mark on disk and the zeroed block, and no other block |
| `FsOps.FileSystem.Balloc` | fs.c:57-78 | the lowest block whose bit on disk is 0, marked and zeroed; fails exactly when every bit is 1 |
| `FsOps.FileSystem.Bfree` | fs.c:82-95 | clears the mark; fails exactly when the bit on disk was 0 |
| `FsOps.FileSystem.TakeBlock` | fs.c:378-394 | a fresh zeroed block for an empty pointer, in memory or in the indirect block, exactly when some block is unmarked, which is then one fewer; otherwise nothing changes |
| `FsOps.FileSystem.LinkBlock` | fs.c:380-394 | the number of the new block goes to its pointer, in the inode or in the indirect block |
| `FsOps.FileSystem.Bmap` | fs.c:373-400 | the block of block bn of the file, with a fresh one and a fresh indirect block exactly where there was none; succeeds exactly when bn is below MAXFILE and the unmarked blocks cover the missing ones; changes nothing when it was there |
| `FsOps.FileSystem.BmapIndirect` | fs.c:385-397 | the same through the indirect block, which costs one block more when it is missing |
| `FsOps.FileSystem.Ilock` | fs.c:288-312 | the inode in memory is the one on disk; fails exactly on a free inode |
| `FsOps.FileSystem.Readi` | fs.c:453-476 | refuses exactly a bad range; else returns the clipped slice of the file and changes nothing, so bmap never allocates |
| `FsOps.FileSystem.ReadLoop` | fs.c:469-474 | the loop returns exactly the requested bytes |
| `FsOps.FileSystem.WriteTurn` | fs.c:498-504 | one turn keeps the loop's account of bytes stored, blocks logged and blocks taken; fails exactly when bmap's cost is not covered |
| `FsOps.FileSystem.Writei` | fs.c:482-511 | refuses exactly a start past the end of the file or an end past 140 blocks, without a change; panics exactly when there are fewer unmarked blocks than the range needs, counted before the call; else the file is the old one spliced with the bytes, other files are untouched, memory and disk inode agree, and exactly the needed blocks are taken; a chunk logs at most MAXOPBLOCKS blocks |
| `FsOps.FileSystem.SetSize` | fs.c:506-509 | size in memory and on disk |
| `FsOps.FinishCount` | file.c:127-139 | a chunk touches at most four data, four free-map, one indirect and one inode block |
| `FsOps.FileSystem.FreePtr` | fs.c:414-419 | the block of a pointer is always marked, so bfree never panics |
| `FsOps.FileSystem.Itrunc` | fs.c:408-435 | frees exactly the blocks of the inode, empties it in memory and on disk, leaves every other file alone |
| `FsOps.FileSystem.FreeIndirect` | fs.c:421-431 | the entries of the indirect block, then the block itself |
| `FsOps.FileSystem.Iput` | fs.c:332-352 | the last reference to an unlinked inode frees its blocks and marks it free on disk; any other only drops the count |
| `FsFiles.WritesCompose` | file.c:134-152 | two adjacent writes are one write of both pieces |
| `FsFiles.OpenFile.Read` | file.c:97-113 | the next bytes of the file, the offset moved past them; refused exactly when not readable or out of range |
| `FsFiles.OpenFile.WriteChunk` | file.c:136-151 | one transaction of at most MAXOPBLOCKS blocks, after which everything is consistent and on disk; panics exactly when the unmarked blocks do not cover the chunk |
| `FsFiles.OpenFile.NextChunk` | file.c:135-151 | one turn of the loop: the account of bytes and blocks since the start of filewrite goes on, and a panic means that the unmarked blocks were too few for the whole of it |
| `FsFiles.AcceptedIs` | file.c:134-152 | how many bytes filewrite stores: none past the end of the file, all that end below the largest size, and of more the whole chunks of 1536 bytes below it |
| `FsFiles.NeededAtMost` | fs.c:373-400 | 141 unmarked blocks are enough for any write |
| `FsFiles.OpenFile.WriteChunks` | file.c:134-153 | stores exactly the chunks before the first one out of range; panics exactly when the unmarked blocks at the start do not cover those |
| `FsFiles.OpenFile.Write` | file.c:118-156 | stores exactly the chunks before the first one out of range: the file is the old one with those bytes spliced in at the offset, no other file changed, each transaction within its bound; returns the count exactly when the offset is within the file and the end within 140 blocks, else -1; panics exactly when the unmarked blocks before the call do not cover what is stored, and never with 141 of them |
| `FsFiles.HistoryRefinesBytes` | fs.c:408-511 | over every history of writes and truncations each file reads as its own operations replayed on a plain byte sequence; ownership and disk tables hold at the end |
| `FsRuns.StepKeepsInv` | fs.c:373-435 | every change of one block by any process, between any two changes of the others, keeps each marked block in one place: at a live pointer or with the process that got it from balloc |
| `FsRuns.MarkKeepsInv` | fs.c:66-69 | balloc's mark, which leaves the block with its process |
| `FsRuns.LinkKeepsInv` | fs.c:380-394 | storing its number makes it live, with the state after bzero in between |
| `FsRuns.UnmarkKeepsInv` | fs.c:414-429 | bfree inside itrunc, which leaves a dead pointer in the inode or the indirect block, while others' balloc may take the block |
| `FsRuns.WipeKeepsInv` | fs.c:417-430 | clearing such a pointer |
| `FsRuns.EmptyKeepsInv` | fs.c:433-434 | the end of itrunc |
| `FsRuns.RunKeepsInv` | fs.c:57-435 | over every interleaving of any number of processes |
| `FsRuns.OneHome` | fs.c:57-435 | so no two live pointers name one block, none names a block that a process holds, no two processes hold one block, every marked data block has its one pointer or holder, and a block that balloc may take has neither |
| `FsRuns.BfreeNeverPanics` | fs.c:90-91 | the block of a live pointer is marked, so bfree does not panic whatever the others do |
| `FsRuns.StepOnFile` | fs.c:373-511 | a step changes block n of file j exactly as its own entry in the run says; a step on another file does not |
| `FsRuns.FileFollowsItsSteps` | fs.c:373-511 | at the end of any interleaving every block of a file and its size are what its own steps, replayed alone in their order, make of them |
| `FsRuns.FreeInodeOwnsNothing` | fs.c:332-352 | at every point of every run an inode of type 0 names no block, owns none and is about to get none |
| `FsRuns.TakeInSteps` | fs.c:373-400 | mark, bzero and link without interruption are the allocation that bmap is proved to make |
| `FsRuns.WriteInSteps` | fs.c:498-509 | the steps of writei and iupdate are the changes those are proved to make |
| `FsRuns.TruncateToEnd` | fs.c:408-435 | from any state of any run, a process in itrunc can go on to its end, and then exactly the blocks its inode still had are free and the inode is empty |
| `FsRuns.CalmIsOwned` | fs.c:57-435 | when nobody is inside balloc or itrunc, the state is as the operations that run alone need it |
| `FsRuns.BootInv` | fs.c:57-435 | and such a state starts a run |
| `StorageStack.SameSystem` | log.c:70-122 | a disk that agrees outside the log region holds the same consistent file system |
| `StorageStack.RunLogs` | log.c:214-233 | over every interleaving of processes on the cache, the store changes by the log_writes in their order, and the logged blocks are those written, each once |
| `StorageStack.Since` | fs.c:57-511 | what the operations of fs.c did to the blocks between two moments is the list of their log_writes |
| `StorageStack.TransactionCommits` | log.c:193-202 | when the cache got the log_writes of any number of operations, in any interleaving with readers, commit finds a transaction that brings the disk from the state before them to the state after |
| `StorageStack.FilesSurviveCrash` | log.c:70-202 | cut that commit anywhere and recover: the disk alone gives a consistent file system in which every file is as before the first of the operations, or, once the header was written, every file as after the last |
| `StorageStack.WriteIsAtomic` | file.c:140-151 | so one write is spliced in whole, or not there at all |
| `StorageStack.PromiseKept` | file.c:127-133 | an operation that logs at most MAXOPBLOCKS different blocks is always within the reservation's promise |
| `StorageStack.StaysModest` | log.c:126-233 | whatever the other processes do meanwhile |
| `Mlfq.StepKeepsInv` | proc.c:649-885 | every critical section of scheduler, trap, fork, exit, wait, sleep, wakeup, kill and the clock keeps the scheduler invariant |
| `Mlfq.SplitIsExact` | queue.c:70-80 | on a sorted queue the early exit of split misses nobody: the walked prefix is exactly those who waited longer than AGE_LIMIT |
| `Mlfq.AgeLevelKeepsInv` | queue.c:56-106 | split of one level onto the one above keeps both in order |
| `Mlfq.AgingPass` | proc.c:656-666 | one pass lifts a process at most one level and leaves nobody below the top waiting longer than AGE_LIMIT |
| `Mlfq.SelectPicksLowest` | proc.c:668-683 | whoever is picked was RUNNABLE and nobody RUNNABLE was on a better level; it is the first of its queue, leaves it and runs, and nothing else changes; somebody is picked whenever somebody is RUNNABLE |
| `Mlfq.WakeKeepsInv` | proc.c:831-846 | wakeup1 keeps the invariant |
| `Mlfq.KillKeepsInv` | proc.c:861-885 | kill keeps the invariant |
| `Mlfq.ExitKeepsInv` | proc.c:337-353 | exit keeps the invariant |
| `MlfqNodes.PoolPush` | queue.c:27-42 | push on the linked nodes: one list longer at its end, the others the same, every node on one list |
| `MlfqNodes.PoolPop` | queue.c:44-52 | pop: the first node off, and free |
| `MlfqNodes.PoolSplit` | queue.c:81-99 | the relinking of split moves exactly the prefix to the end of the list above |
| `MlfqNodes.FreeNodeExists` | queue.c:13-21 | q_alloc in push never returns 0 |
| `MlfqRuns.QueuedExactlyOnce` | proc.c:649-885 | in every reachable state a process is RUNNABLE exactly when it has a place in a queue, the place is unique, and the queue is the one its record names |
| `MlfqRuns.DemotionOnlyAfterFullSlice` | trap.c:121-133 | a process drops a level only when it yields after its 2^queue-th timer interrupt, and then one level; a voluntary yield or a sleep never demotes |
| `MlfqRuns.AgedWithinLimit` | proc.c:656-666 | queued below the top and queued ever since, a process is on a better level after any aging pass made more than AGE_LIMIT ticks later |
| `MlfqRuns.TopWaitIsBounded` | proc.c:668-683 | at the top level a process with j others ahead of it sees at most j dispatches before its own |
| `MlfqRuns.WaitIsBounded` | proc.c:656-683 | a process that becomes RUNNABLE on level i sees, after i aging passes more than AGE_LIMIT ticks apart, fewer than NPROC dispatches of others before its own |
| `MlfqWakeups.WakeupWakes` | proc.c:831-846 | wakeup(chan) makes exactly the sleepers on chan RUNNABLE, stamped now, and changes no other record |
| `MlfqWakeups.WakeupQueues` | proc.c:831-846 | each level gets its own of them at its end in the order of the table |
| `MlfqWakeups.KillMarks` | proc.c:861-885 | kill(pid) marks the first process with that pid and wakes it if it sleeps; no other record changes |
| `MlfqWakeups.ExitDoes` | proc.c:337-353 | exit makes its caller a zombie, its children init's, and wakes exactly its parent in wait, and init in wait if it leaves a zombie; nothing else changes |
| `MlfqWakeups.StepSetsRecord` | proc.c:100-135 | what allocproc, fork, wait, the timer, yield and sleep make of every field of every record |
| `MlfqWakeups.StepQueues` | proc.c:706-724 | fork and yield put their process at the end of the queue its record names |
| `MlfqWakeups.SleepsUntilWoken` | proc.c:791-885 | a sleeper sleeps on, on its channel, exactly until a wakeup of that channel, a kill of it, or an exit that wakes it |
| `MlfqWakeups.FallsAsleep` | proc.c:791-825 | nobody falls asleep but by its own sleep |
| `MlfqWakeups.WakeupReaches` | proc.c:791-846 | over every run: who went to sleep on chan, and not again since, is not asleep after a wakeup of chan |
| `MlfqWakeups.NoExitMissed` | proc.c:337-400 | over every run: a process that sleeps in wait has no zombie child |
| `MlfqWakeups.RunPids` | proc.c:115-116 | over every run: processes in use have different pids |
| `MlfqWakeups.KillHitsItsProcess` | proc.c:861-885 | so kill of a positive pid marks and wakes the process that has it and touches no other |
| `MlfqWakeups.SpotlessKeptExactly` | proc.c:861-885 | which steps leave an unused slot marked killed, and no others do; a process starts killed only in such a slot |
| `MlfqWakeups.BornKilled` | proc.c:868-869 | a run with kill(0) after which the next process starts killed |
| `MlfqKernel.Kernel.constructor` | proc.c:37-53 | the table and the queues start empty |
| `MlfqKernel.Kernel.QAlloc` | queue.c:13-21 | the first unused node, or none when all are in use |
| `MlfqKernel.Kernel.Push` | queue.c:27-42 | the pointer code appends one fresh node to the list |
| `MlfqKernel.Kernel.Pop` | queue.c:44-52 | the pointer code frees the head and returns the next node |
| `MlfqKernel.Kernel.Length` | queue.c:108-116 | the length of the list |
| `MlfqKernel.Kernel.WalkOld` | queue.c:65-80 | the first loop of split walks exactly the too-old prefix, restamps it and moves it one level up |
| `MlfqKernel.Kernel.SplitLevel` | queue.c:56-106 | split is one level of the aging pass, on the nodes |
| `MlfqKernel.Kernel.Wakeup1` | proc.c:831-846 | is the Wakeup step: exactly the sleepers on chan become RUNNABLE, stamped now |
| `MlfqKernel.Kernel.KillPid` | proc.c:861-885 | is the Kill step; 0 exactly when some slot has that pid, and then the first such is marked and awake |
| `MlfqKernel.Kernel.ExitCurrent` | proc.c:337-353 | is the Exit step |
| `MlfqKernel.Kernel.Schedule` | proc.c:656-697 | is the Dispatch step: age, then run the first process of the first nonempty queue |
| `MlfqKernel.Kernel.YieldCurrent` | proc.c:706-724 | is the Yield step: requeued, one level down if punished |
| `MlfqKernel.Kernel.TimerInterrupt` | trap.c:121-133 | is the TimerTrap step; the process must yield exactly when its slice is used up |
| `MlfqKernel.Kernel.SleepCurrent` | proc.c:791-825 | is the Sleep step |
| `MlfqKernel.Kernel.AllocProc` | proc.c:100-135 | is the Alloc step: the first UNUSED slot with the next pid; -1 exactly when no slot is UNUSED |
| `MlfqKernel.Kernel.ForkReadyChild` | proc.c:296-302 | is the ForkReady step |
| `MlfqKernel.Kernel.ReapChild` | proc.c:371-385 | is the Reap step |
| `MlfqKernel.Kernel.FindChild` | proc.c:368-390 | wait's scan: whether there are children, and the first zombie among them |
| `MlfqKernel.Kernel.WaitTurn` | proc.c:360-402 | one turn of wait collects a zombie child exactly when there is one; it fails exactly without children or when killed; else it is the Sleep step on its own record, the only kind that misses no exit |
| `Pbs.SomeBest` | proc.c:596-646 | whenever some process is RUNNABLE exactly one is first by priority, time slices and slot |
| `Pbs.StepKeepsOk` | proc.c:451-472 | priorities stay in 0 to 100, and one process runs at a time |
| `Pbs.StepOnTask` | proc.c:596-636 | what each step makes of every process: a dispatch counts one time slice, a new priority starts them over, allocproc starts at 60 |
| `Pbs.StepKeepsSpread` | proc.c:596-646 | one dispatch keeps the time slices of a top-priority group within the same spread |
| `Pbs.SpreadStaysSmall` | proc.c:596-646 | over every run in which a fixed group stays ready and alone at the best priority, its time slices stay within the initial spread, or 1 |
| `Pbs.SlicesCountTurns` | proc.c:596-646 | time slices count dispatches |
| `Pbs.TurnsAreFair` | proc.c:596-646 | no member is dispatched more than twice that spread more often than another |
| `Pbs.ProcTable.Select` | proc.c:600-619 | the scan finds the best RUNNABLE process, and -1 exactly when there is none |
| `Pbs.ProcTable.Schedule` | proc.c:596-636 | is the Dispatch step of that process |
| `Pbs.ProcTable.SetPriority` | proc.c:451-472 | is the SetPriority step; the priority is the new one if it is in range, the time slices start over exactly if it changed; the old priority, or -1 and no change |
| `Heap.BlocksApart` | umalloc.c:24-44 | no two blocks, free or in use, overlap |
| `Heap.CarveKeepsInv` | umalloc.c:78-82 | malloc takes the tail of a larger block and keeps the invariant |
| `Heap.TakeWholeKeepsInv` | umalloc.c:75-77 | malloc takes a block of exactly the size and keeps the invariant |
| `Heap.AbsorbKeepsInv` | umalloc.c:33-35 | free joins the block behind |
| `Heap.JoinKeepsInv` | umalloc.c:38-40 | free joins the block before |
| `Heap.InsertKeepsInv` | umalloc.c:36-42 | free links a block that touches no free one |
| `Heap.FreedKeepsInv` | umalloc.c:25-44 | free, in all four cases, keeps the list in order without touching neighbours, loses no unit, and leaves the other blocks alone |
| `Heap.ObtainedKeepsInv` | umalloc.c:57-59 | fresh units from sbrk become a block |
| `Heap.Conserved` | umalloc.c:24-90 | free units plus units in use are the units obtained |
| `Heap.StepKeepsInv` | umalloc.c:24-90 | each of these steps keeps the invariant and the count |
| `Heap.AnyRun` | umalloc.c:24-90 | after any sequence of malloc and free the free list is in address order with a gap after each block, no two blocks overlap, and free plus used units are all that was ever obtained |
| `HeapShape.StartsFree` | umalloc.c:24-44 | a free block begins exactly where a run of units that no block in use holds begins |
| `HeapShape.EndsFree` | umalloc.c:24-44 | and ends where the run ends |
| `HeapShape.UseDecides` | umalloc.c:24-90 | so the blocks in use decide the free list, its order, its blocks and their sizes |
| `HeapShape.FreeUndoesMalloc` | umalloc.c:24-90 | free undoes malloc: the free list is what it was, however malloc cut the block out and free joined it in |
| `Umalloc.WhenUnitsSuffice` | umalloc.c:69 | the computed units hold nbytes exactly when the rounding does not wrap, and then they are the fewest that do |
| `Umalloc.HugeRequestWraps` | umalloc.c:69 | the largest request is given one unit |
| `Umalloc.RequestIs` | umalloc.c:52-53 | morecore asks for what is needed and for at least 4096 units |
| `Umalloc.WhenGrantIsWhole` | umalloc.c:52-54 | sbrk gives the units morecore records exactly when their byte count fits a signed int |
| `Umalloc.WhenMallocServes` | umalloc.c:47-90 | the block a fresh request gets is backed by memory and large enough exactly up to 0x7FFFFFF0 bytes |
| `Umalloc.UnbackedRequests` | umalloc.c:52-58 | two requests for which sbrk is asked for nothing and for a negative count, and morecore goes on |
| `Umalloc.BackedWhen` | umalloc.c:47-61 | recorded and given units agree exactly when the byte count did not wrap |
| `Umalloc.Allocator.FindPlace` | umalloc.c:30-32 | the search of free stops at the free block right before the freed one, round the end of the ring too |
| `Umalloc.Allocator.Free` | umalloc.c:25-44 | the pointer code gives the list with the block joined in its place; the other blocks in use keep their sizes |
| `Umalloc.Allocator.Morecore` | umalloc.c:47-61 | one free block more, of the requested units, or no change when sbrk fails |
| `Umalloc.Allocator.FirstFit` | umalloc.c:74-86 | finds the first block behind freep, going round, that is large enough, exactly when there is one |
| `Umalloc.Allocator.Allot` | umalloc.c:74-84 | hands out exactly the units asked for, at the end of the block, and leaves freep at the block before it |
| `Umalloc.Allocator.TakeFirst` | umalloc.c:73-85 | the end of the first block behind freep that is large enough, exactly when there is one |
| `Umalloc.Allocator.TakeFresh` | umalloc.c:86-88 | after morecore a block of the units asked for, or no change when sbrk fails |
| `Umalloc.Allocator.Malloc` | umalloc.c:64-90 | a new block of the computed units that shares none with a block in use; the end of the first free block behind freep that is large enough, if there is one; 0 exactly when there is none and sbrk fails; morecore called exactly when there is none; all recorded units backed by memory afterwards exactly when the byte count did not wrap |
| `Pages.OnePlace` | vm.c:36-80 | no two entries of any two address spaces share a page |
| `Pages.PoppedKeepsInv` | kalloc.c:83-95 | kalloc keeps every page in one place: the free list, an address space, or a holder in the kernel |
| `Pages.PushedKeepsInv` | kalloc.c:60-77 | so does kfree |
| `Pages.HungKeepsInv` | vm.c:46-52 | hanging a zeroed table in an empty slot changes no lookup |
| `Pages.PlacedKeepsInv` | vm.c:70-73 | setting, clearing or restricting one entry changes the lookup of that page of that address space alone |
| `Pages.DroppedKeepsInv` | vm.c:270-275 | freeing one user page likewise |
| `Pages.FoundedKeepsInv` | vm.c:124-126 | a zeroed page becomes an address space with nothing in it |
| `Pages.DisbandedKeepsInv` | vm.c:284-298 | once its user half is empty, an address space can go |
| `Pages.OwnersFollow` | vm.c:284-298 | equal entries and equal kernel holdings mean equal owners of every page and the same set of free pages |
| `Pages.Census` | kalloc.c:60-95 | free pages, pages held in the kernel and the pages of all address spaces are all the pages there are |
| `Pages.NeededBlank` | vm.c:316-345 | a copy of k user pages takes 65 pages for the kernel half, k pages, and a table for each 1024 |
| `Pages.NeededThen` | vm.c:222-249 | pages lo to mid and then mid to hi cost what lo to hi cost, tables included |
| `Pages.KmapIs` | vm.c:105-115 | the four ranges of kmap are one mapping, without overlap |
| `Vm.PagesForIs` | mmu.h:90-91 | PGROUNDUP gives the fewest pages that hold the bytes |
| `Vm.AddressSplits` | mmu.h:72-88 | directory slot and table entry of an address are its upper ten bits and the next ten |
| `Vm.KernelHalf` | vm.c:105-115 | physical memory up to PHYSTOP is mapped from KERNBASE on and the devices where they are, text not writable, nothing the user's, and nothing else |
| `Vm.Memory.constructor` | kalloc.c:47-53 | freerange puts exactly its pages on the list |
| `Vm.Memory.Kalloc` | kalloc.c:83-95 | the first free page, off the list, or -1 exactly when there is none; no page changes |
| `Vm.Memory.Kfree` | kalloc.c:60-77 | the page goes to the front of the list |
| `Vm.Memory.Walk` | vm.c:36-55 | the table of the entry; -1 exactly when it is missing and may not, or cannot, be made; no lookup changes |
| `Vm.Memory.MapPage` | vm.c:68-78 | one turn of mappages: exactly when it panics, when it runs out, and what it maps |
| `Vm.Memory.Drop` | vm.c:270-275 | kfree the page, clear the entry |
| `Vm.Memory.DeallocUvm` | vm.c:256-279 | every page between the sizes is unmapped and freed though missing tables are skipped; all else is as before |
| `Vm.Memory.AllocUvm` | vm.c:222-249 | panics exactly when it comes to a page that is mapped already before it runs out of pages; otherwise succeeds exactly when the free pages cover the new pages and the missing tables, and then the new pages are there, zero and writable; else they are all unmapped again; all else is as before |
| `Vm.Memory.GiveUp` | vm.c:235-245 | the rollback leaves no page behind outside the tables |
| `Vm.Memory.FreeVm` | vm.c:284-298 | every page of the address space is free, no other address space changed |
| `Vm.Memory.MapKernel` | vm.c:61-80 | one range of kmap, or out of memory |
| `Vm.Memory.MapRanges` | vm.c:129-134 | all four ranges, or out of memory |
| `Vm.Memory.SetupKvm` | vm.c:119-136 | succeeds exactly with 65 free pages, and has the kernel half and nothing else; otherwise every page is back |
| `Vm.Memory.CopyPage` | vm.c:325-340 | one turn of copyuvm: missing, out of memory, or copied |
| `Vm.Memory.CopyUvm` | vm.c:316-345 | a new address space with the same permissions and bytes on every page; panics exactly when it comes to a missing page below the size before it runs out of pages; out of memory only when the pages do not suffice, and then every page is back |
| `Vm.Memory.ClearPteu` | vm.c:303-311 | the page is no longer the user's, and nothing else changes |
| `Spaces.Processes.Grow` | proc.c:246-248 | exactly the pages of the new size are mapped, zero; fails exactly past KERNBASE or out of pages, and then nothing is mapped |
| `Spaces.Processes.Shrink` | proc.c:249-252 | exactly the pages of the new size are left; a request for more than there is changes nothing; the sizes stay true exactly unless all of it is given back |
| `Spaces.Processes.GrowProc` | proc.c:240-256 | what it returns, for every n and every number of free pages; new pages are zero; every process keeps exactly the pages its size covers, exactly unless a process gives back all of a nonzero size |
| `Spaces.Processes.Fork` | proc.c:262-305 | never panics; succeeds exactly when the pages suffice; the child has the parent's size and bytes; otherwise every page is back |
| `Spaces.Processes.LoadSegment` | exec.c:50-52 | the pages of one segment: which size results, for every end of it and every number of free pages |
| `Spaces.Processes.LoadSegments` | exec.c:41-58 | succeeds exactly when every segment checks, loads and ends below KERNBASE and the free pages cover pages and tables up to the largest end; then there are those pages and no others |
| `Spaces.Processes.AddStack` | exec.c:63-68 | two pages more exactly when they fit below KERNBASE and the free pages cover the whole image; then every page of the image is the user's and writable, but the one below the stack, which the user cannot reach |
| `Spaces.Processes.BuildImage` | exec.c:30-93 | the address space of the new image, exactly when segments, stack and arguments go through and the free pages cover all of it; else every page is back |
| `Spaces.Processes.Exec` | exec.c:11-114 | succeeds exactly when every segment checks and loads, the arguments fit, image and stack end below KERNBASE, and the free pages cover the kernel half, the image, the stack and their tables; the new image then has exactly the pages of its size, all the user's and writable but the guard page below the stack, and the old one is freed; on failure everything is as before and every page is back |
| `Spaces.Processes.Reap` | proc.c:371-385 | the pages of the zombie are free, the others' are as before |
| `Pipe.TestsMean` | pipe.c:85-116 | the tests on the wrapping 32-bit counters mean empty and full, and the index is right |
| `Pipe.StepKeepsInv` | pipe.c:60-121 | every step of any reader, writer, closer or killer keeps the ring right |
| `Pipe.ReadsArePrefix` | pipe.c:79-121 | over every interleaving what was read is a prefix of what was written |
| `Pipe.TurnMoves` | pipe.c:79-121 | a write turn appends the next bytes of its buffer, a read turn takes the oldest unread ones |
| `Pipe.TurnEnds` | pipe.c:79-121 | how a turn ends for its process, and whom it wakes: every field of every process |
| `Pipe.StepDoes` | pipe.c:60-77 | what pipeclose, kill and the start of a call make of the ends and of every process |
| `Pipe.WaitsKeptExactly` | pipe.c:84-96 | that nobody sleeps with something to do is kept by every step but exactly one kind: a killed writer with more than PIPESIZE bytes to go fills the pipe and leaves while a reader sleeps |
| `Pipe.NoKillNoLoss` | pipe.c:60-121 | in every run without kill a sleeping reader means empty and write-open, a sleeping writer full and read-open |
| `Pipe.KillLosesWakeup` | pipe.c:86-89 | a run with kill that ends with a full pipe and its reader asleep |
| `Pipe.PipeBuf.constructor` | pipe.c:23-57 | an empty pipe, open at both ends |
| `Pipe.PipeBuf.WriteTurn` | pipe.c:79-98 | under the lock: stores as much as fits, then returns, fails or sleeps; wakes the readers unless it fails |
| `Pipe.PipeBuf.ReadTurn` | pipe.c:101-121 | under the lock: fails, sleeps, or takes what is there |
| `Pipe.PipeBuf.Close` | pipe.c:60-77 | shuts one end, and frees the pipe exactly when both are shut |
| `ShellLex.ClassifyIs` | sh.c:262-263 | which characters are white space, symbols, words and the end to the lexer, and that nothing is lost |
| `ShellLex.TokenSpan` | sh.c:266-308 | a token lies within the line, is not empty, and a word is a maximal run of letters |
| `ShellLex.LexSkips` | sh.c:271-272 | white space between tokens does not matter |
| `ShellGrammar.SoundLine` | sh.c:345-446 | what the token parser returns is a tree of the grammar that spells the tokens consumed |
| `ShellGrammar.CompleteLine` | sh.c:345-446 | and it finds every such tree |
| `ShellGrammar.AcceptsExactly` | sh.c:345-446 | so it accepts exactly the sentences of the grammar, each with its only tree |
| `ShellLayout.LineLaid` | sh.c:345-446 | every syntax tree of the line is laid out over its characters: arguments in order, the last redirection outermost, left and right of each bar and semicolon, one background for each ampersand |
| `ShellLayout.LineTree` | sh.c:345-446 | and every command laid out over the characters has a syntax tree |
| `ShellLayout.LaidIsDenoted` | sh.c:328-446 | so the grammar's commands are exactly those laid out over the line |
| `ShellLayout.DirectedLine` | sh.c:375-397 | in such a command the character before the file of a redirection is < exactly when it reads and > when it writes, and it is descriptor 0 or 1 accordingly |
| `Shell.GetToken` | sh.c:266-308 | the first token of the rest of the line, its place, and the cursor behind it |
| `Shell.Peek` | sh.c:311-320 | whether the next character is one of those, the cursor over white space |
| `Shell.ParseRedirs` | sh.c:375-397 | agrees with the token parser on the redirections |
| `Shell.ParseArgs` | sh.c:416-446 | agrees with the token parser on a simple command, the limit on arguments included |
| `Shell.ParseExec` | sh.c:416-446 | agrees with the token parser on a command |
| `Shell.ParseBlock` | sh.c:400-413 | agrees on a block in parentheses |
| `Shell.ParsePipe` | sh.c:362-372 | agrees on a pipeline |
| `Shell.ParseLine` | sh.c:345-359 | agrees on a line |
| `Shell.ParseBacks` | sh.c:350-353 | one background node for each ampersand |
| `Shell.LineDecides` | sh.c:328-342 | at most one command denotes a line, and agreement with the token parser decides which |
| `Shell.LineMeant` | sh.c:328-342 | a command of the grammar is what the characters of the line say |
| `Shell.NulTerminate` | sh.c:450-493 | a NUL right behind each token of the tree, and no other change |
| `Shell.TokensReadBack` | sh.c:450-493 | each token then reads as a C string as it stood in the line |
| `Shell.EveryWordOnce` | sh.c:328-446 | the command mentions every word of the line exactly once |
| `Shell.ParseCmd` | sh.c:328-342 | succeeds exactly on the sentences of the grammar, with the command that is laid out over the characters of the line, redirections in their direction; every token of it then reads as a C string as it stood in the line; otherwise no command is laid out over the line, and it is left alone |

## Findings

Where the code does not meet what one would expect of it, a member gives an input or a sequence of steps, and
another states exactly when it does.

- log_write can panic on an operation that has not used up its MAXOPBLOCKS blocks, because mkfs makes the log
  LOGSIZE blocks long including its header (mkfs.c:25, log.c:218): `LogSpace.PromisedBlockCanPanic`. And it can
  panic on a block that is in the log already, because the test for space precedes the search
  (log.c:218-227): `LogSpace.AbsorbedWriteCanPanic`. `LogSpace.WhenLogWritePanics` is the exact condition.
- commit panics in write_log when every buffer is pinned or referenced (bio.c:92, NBUF equals LOGSIZE in param.h):
  one reader that holds the buffer of another block is enough when 29 blocks are logged, and
  `CacheFull.CommitCanPanic` is a run from boot that leads there. `LogCommit.CommitLog.Commit` states it as an
  equivalence, `LogCommit.RoomIs` and `LogCommit.TakenAlone` count the buffers.
- kill does not look at the state of the slot it finds, and allocproc does not clear the mark: kill(0) marks a slot
  nobody uses, and the next process in it starts out killed (proc.c:868-869, proc.c:115-133):
  `MlfqWakeups.BornKilled`. `MlfqWakeups.SpotlessKeptExactly` says which steps do this and that no others do.
- A writer that is killed while a pipe is full leaves without waking the readers it gave bytes to
  (pipe.c:86-88): `Pipe.KillLosesWakeup`. `Pipe.WaitsKeptExactly` says which steps do this and that no others do;
  `Pipe.NoKillNoLoss` excludes it for runs without kill.
- malloc's rounding up wraps for the largest requests (umalloc.c:69): `Umalloc.HugeRequestWraps`, exactly when
  `Umalloc.WhenUnitsSuffice` says. morecore's byte count wraps or turns negative for requests past 0x7FFFFFF0 bytes
  and sbrk then succeeds without giving the memory (umalloc.c:54, proc.c:249-252): `Umalloc.UnbackedRequests`, exactly
  when `Umalloc.WhenMallocServes` says, and `Umalloc.Allocator.Malloc` states the effect on the heap.
- growproc by exactly minus the size frees every page, reports failure and leaves the size as it was
  (proc.c:249-252), so the size no longer says which pages are there: `Spaces.Processes.Shrink` and
  `Spaces.Processes.GrowProc` state that this is the only request after which the sizes and the pages disagree.

## Left out

- Directories, path names, ialloc, iget and link counts beyond iput; the system call layer: they would mostly add
  easy members.
- Device inodes in readi and writei: `FsOps.FileSystem.Readi`, `FsOps.FileSystem.Writei` and `FsFiles.OpenFile` are
  about files and directories.
- That the files have no holes to begin with is assumed; the rounding at mkfs.c:158-163 can break it for the root
  directory.
- FsFiles.OpenFile.Write: no other process writes the file between two chunks, and a negative count is not modelled.
- FsFiles.HistoryRefinesBytes: the operations of a history are whole calls, one after the other; their single changes
  interleaved are in `FsRuns.RunKeepsInv` and `FsRuns.FileFollowsItsSteps`.
- FsState.OneOwner: is about inodes of every type; that an inode of type 0 owns nothing is
  `FsRuns.FreeInodeOwnsNothing`.
- FsRuns.RunKeepsInv: a step is one critical section of a buffer or inode lock; that a file keeps no holes and that its
  size covers its blocks are proved for whole calls only. The type of an inode can become 0 only when it names no block,
  as after itrunc in iput.
- LogCommit.CommitLog.Commit: the other processes' references to buffers stay what they are while commit works, so the
  panic is decided by how many there are at its start; `LogCommit.ReadersChangeNothing` says what their coming and going
  cannot change. A buffer that one of them has locked for change is not there, since commit begins when no operation is
  open.
- RedoLog.HistoryIsAtomic: a disk write of one block is atomic and the writes reach the disk in order.
- Interrupts, spinlocks and memory ordering: a critical section is one step. Context switches are step boundaries.
- ticks grows without bound and does not change inside a critical section of ptable.lock.
- MlfqWakeups.RunPids: nextpid grows without bound.
- MlfqWakeups.NoExitMissed: init is the process of userinit, and only running processes fork; the channel that sleep
  clears when it returns is not cleared in the model, since only sleepers' channels are looked at.
- The round-robin and first-come schedulers; waitx and getpinfo statistics.
- Pbs.SpreadStaysSmall: one CPU.
- Umalloc.Allocator.Malloc: other calls of sbrk in the same program only move the break between two calls, and the
  break is a multiple of the header size.
- Pipe.PipeBuf.WriteTurn: n is at least 0, and one call is the part of pipewrite from taking the lock to sleep or
  return.
- Vm.Memory.Kfree: the tests for alignment and range at kalloc.c:64-65 are met by page numbers; the fill with 1 is not
  modelled.
- Vm.Memory.Walk: physical and virtual addresses are page numbers, the TLB and the hardware's accessed and dirty bits
  are not there.
- Spaces.Processes.Fork: kernel stacks, open files and names are not there.
- Spaces.Processes.Exec: the bytes loaded from the file and the arguments on the stack are not modelled, only whether
  loading them succeeded, so the pages stay zero; neither is userinit.
- Spaces.Processes.Reap: the search of wait for a zombie is in `MlfqKernel.Kernel.WaitTurn`.
- Shell.ParseArgs: arguments are collected before the redirections around them are wrapped, where sh.c fills the exec
  node in place while wrapping; running commands, the built-in cd and getcmd are not modelled.
- Shell.ParseCmd: characters are those sh.c tells apart, plus letters for all others; memory for nodes never runs out.
