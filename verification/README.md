# A verified model of an xv6 kernel and its tools

This project models the hard parts of an x86 xv6 fork in Dafny and proves properties of them for all
inputs, all interleavings and all reachable states. Check it with `dafny verify dfyconfig.toml`.

What is modelled, file by file:

- `Common.dfy`: the constants and small types that several parts share.
- `Log.dfy` and `LogCode.dfy`: the redo log of log.c. The first is the protocol as a state machine in
  which one block write or one stretch under log.lock is one step and a crash may come between any two
  steps, during recovery as well. The second is the code as a class; each disk write and each stretch
  under log.lock is one step of the machine.
- `BufferCache.dfy`: bio.c over the memory disk of memide.c, with the circular most-recently-used list
  kept as two link arrays. The cache refines a plain block map.
- `CommitCode.dfy`: commit() and recover_from_log() with every bread, bwrite and brelse they make on that
  cache, as runs of the protocol in `Log.dfy`, and exactly when they find no buffer.
- `DiskFormat.dfy`, `BlockMap.dfy`, `InodeBlocks.dfy`, `FileSystem.dfy`, `FileContents.dfy`: bitmap, inode
  block map, the bytes of inode blocks, readi, writei and filewrite. Every block has one owner, files are
  byte sequences, and every transaction keeps to its log allowance.
- `FileCrash.dfy`: filewrite over the log. A crash at any moment leaves a consistent file system with whole
  chunks of the write.
- `Mkfs.dfy`: mkfs.c builds images that satisfy the invariant of `BlockMap.dfy`, byte for byte readable
  as the files and the root directory it was given.
- `SleepWakeup.dfy`: sleep and wakeup under two locks, used by sleep locks, the log and pipes.
- `Pipe.dfy`: the pipe's ring with 32-bit counters.
- `Processes.dfy`: the process table, with fork, exit, wait, waitx, kill, yield, the scheduler loop
  (DEFAULT policy) and the timer interrupt's time accounting.
- `Heap.dfy`: malloc and free of umalloc.c.
- `PageTables.dfy`: kalloc.c and the two-level page tables of vm.c.
- `Shell.dfy`, `ShellRoundTrip.dfy`, `ShellCode.dfy`: sh.c's parser, as a grammar, with its printer, and as
  the imperative code that moves a cursor and terminates words in place.
- `Grep.dfy`: grep.c's matcher against the language a pattern denotes.

Imperative code is modelled by classes and methods that are proved against specification functions;
protocols are state machines whose steps are the stretches of code between lock operations, or between
block writes. I/O, sbrk's answers, the time of interrupts and the order of processes are parameters or
free choices of the machine.

Where the code does not do what one would expect, the model follows the code:

- log_write tests the log's size before it looks for the block, so a full log stops even a write that would
  be absorbed; and with `log.size == LOGSIZE`, as mkfs sets it, an operation within its allowance can be
  stopped. `NoPanicIff` and `FullLogStopsAbsorbedWrite` give the exact conditions.
- log_write makes that test before it takes log.lock. Two operations can both pass it and then append in
  turn, so with `log.size <= LOGSIZE` the log can outgrow its area. In a log smaller than LOGSIZE write_log
  then writes the block behind the area before the header is on disk (`OverflowRun`). On mkfs's images, where
  `log.size == LOGSIZE`, it does not come to that: the log that outgrew the area pins every buffer, and commit
  panics before it writes anything. `AtomicIff` has both exact conditions.
- NBUF equals LOGSIZE, so a log of LOGSIZE entries pins every buffer and commit's first bread panics; fewer
  entries do the same if readers hold the rest of the cache. `Commit` in `CommitCode.dfy` gives the exact count,
  and `CommitStops` such a cache for every number of entries.
- readi on a hole makes bmap allocate a block, and neither readi nor a writei within the old size calls
  iupdate, so the inode on disk falls behind; `Readi` and `Writei` say exactly when. fileread calls readi
  outside any transaction, where the log_write under bmap panics if no operation is outstanding (`LogTest`).
- mkfs rounds the root directory's size up by a whole block when it is already a multiple of the block size,
  which leaves the last block of the directory without a disk block. `RootHole` says exactly when.
- A killed writer returns from pipewrite without waking readers. `ReaderStranded` is a run in which a reader
  then sleeps on a full pipe; `KilledReturnExactly` says that the return is harmless exactly if the writer
  has put in nothing since its last wakeup.
- The timer branch charges I/O time to a SLEEPING process, but the interrupted process is always RUNNING:
  `TimeAccounting` proves that iotime stays 0, so the waiting time that waitx reports includes sleep.
- malloc's size arithmetic wraps above 2^32 - 8 bytes (`NUnitsFit`).
- `>>` opens its file exactly as `>` does.

## Model

| member | source | states |
|---|---|---|
| RedoLog.PutHead | log.c:101-113 | The header block that write_head leaves reads back as exactly the in-memory header, and every word past the entries keeps its value |
| RedoLog.UnusedAt | log.c:132-137 | The unused allowance of all outstanding operations is one operation's plus the rest's, whichever is singled out, so the sum depends on no order |
| RedoLog.StepKeeps | log.c:69-233 | Every step of the protocol, a crash included, keeps the bookkeeping of log, header, reservations and history, and as long as write_log kept to the log area the contents of disk, log and cache as well; log_write's test and its append are two steps that other processes may come between |
| RedoLog.CrashAtomicity | log.c:69-122 | In every reachable state of a log of at least LOGSIZE blocks, with crashes anywhere, the disk would show after recovery exactly the effect of a prefix of the history that consists of whole operations; in a smaller log, as long as write_log kept to the log area |
| RedoLog.RecoveryRun | log.c:115-122 | Recovery cut short any number of times never loses or adds history |
| RedoLog.RecoveryOutcome | log.c:115-122 | When recovery from such a state ends, home blocks are as after the interrupted transaction if the header write had reached the disk, and as before it otherwise |
| RedoLog.CommitPoint | log.c:192-202 | Only the header write (or the end of a group that logged nothing) makes more history durable, and then all of it, with no operation open |
| RedoLog.HomeWritesWait | log.c:145-174 | While committing no operation is outstanding, so end_op's panic is out of reach; a home block changes on disk only when every operation in the history has ended (in a log smaller than LOGSIZE, as long as write_log keeps to the log area) |
| RedoLog.Reservation | log.c:125-141 | Blocks logged plus what outstanding operations may still add stay within LOGSIZE, so an operation with allowance left finds room |
| RedoLog.NoPanicIff | log.c:213-233 | log_write never stops an operation with allowance left if and only if log.size > LOGSIZE; on images of mkfs, where they are equal, the panic can be reached |
| RedoLog.FullLogStopsAbsorbedWrite | log.c:218-230 | The size test comes before absorption: a reachable state in which rewriting an already logged block panics |
| RedoLog.OverflowRun | log.c:213-233 | For every log.size from 2 up to but not including LOGSIZE a run in which two operations pass the unlocked size test before either appends; write_log then writes the block behind the log area before the header, and a crash shows part of an uncommitted transaction |
| RedoLog.AtomicIff | log.c:177-233 | The log keeps to its area in all runs if and only if log.size > LOGSIZE (or is 1, when every log_write panics); write_log stays in the log area, crashes are atomic and home blocks wait for the commit, each in all runs, if and only if log.size >= LOGSIZE (or is 1) |
| RedoLog.SerialRun | log.c:213-233 | In runs whose log_write calls do not overlap, the log keeps to its area and crashes are atomic whatever log.size is |
| LogCode.Log.constructor | log.c:53-66 | A booted log is a state of the protocol about to recover what the disk shows |
| LogCode.Log.ReadHead | log.c:85-96 | The loop reads the header's block numbers in order |
| LogCode.Log.WriteHead | log.c:101-113 | Exactly the header block changes, to the in-memory header |
| LogCode.Log.InstallTrans | log.c:69-82 | The copy loop is a sequence of protocol steps and ends with every logged block installed |
| LogCode.Log.RecoverFromLog | log.c:115-122 | Afterwards the log is empty and home blocks equal the replay of the durable history |
| LogCode.Log.Reboot | log.c:53-66 | A crash at this point keeps the disk, cuts the history at its durable end and leads to recovery |
| LogCode.Log.BeginOp | log.c:125-141 | An operation is admitted exactly when no commit is under way and a full allowance still fits |
| LogCode.Log.Find | log.c:224-227 | The search finds the block's entry, or none exists |
| LogCode.Log.LogTest | log.c:218-221 | Panics exactly by its two tests, the size of the log and an outstanding operation, made without the lock; otherwise the caller has passed, which no later step takes back |
| LogCode.Log.LogAppend | log.c:223-232 | Under the lock the block is logged once, with absorption and without a new test, and its new contents enter the history |
| LogCode.Log.WriteLog | log.c:177-190 | The loop copies each logged block from the cache to its slot, one protocol step each, or panics with nothing written exactly if the logged blocks pin all NBUF buffers |
| LogCode.Log.Commit | log.c:192-202 | Panics exactly for a log of LOGSIZE entries; otherwise the whole history is durable and installed and the log is empty |
| LogCode.Log.LeaveOp | log.c:145-164 | The last operation to end starts a commit, any other does not |
| LogCode.Log.EndOp | log.c:145-174 | The last end_op commits the whole group, or panics with nothing written if the log is full; others leave disk and durable history alone |
| BufferCache.MoveToFrontPermutes | bio.c:128-138 | Moving a buffer to the front keeps the list a permutation |
| BufferCache.MoveToFrontKeeps | bio.c:128-138 | The list still holds each of the NBUF buffers exactly once |
| BufferCache.Unlinked | bio.c:132-133 | Unlinking by two pointer writes leaves the circular list of the others |
| BufferCache.Pushed | bio.c:134-137 | Linking behind the head by four pointer writes puts the buffer first |
| BufferCache.RecycleKeeps | bio.c:81-90 | Recycling an unreferenced clean buffer keeps the cache in agreement with the block map |
| BufferCache.PinKeeps | log.c:228-231 | B_DIRTY on a logged buffer pins its update |
| BufferCache.ReadKeeps | memide.c:38-60 | A block read from disk is its current value |
| BufferCache.BCache.constructor | bio.c:38-56 | binit builds the circular list of all NBUF buffers, all of them device 0, block 0 and invalid |
| BufferCache.BCache.FindCached | bio.c:69-76 | The scan finds the claimed buffer for the block, or there is none |
| BufferCache.BCache.FindVictim | bio.c:78-91 | The backward scan finds the least recently used buffer that may be recycled, or there is none |
| BufferCache.BCache.Bget | bio.c:61-93 | Panics exactly when the block is not cached and nothing can be recycled; otherwise at most that one buffer changes, and uniqueness of claimed buffers is kept |
| BufferCache.BCache.Iderw | memide.c:38-60 | A dirty buffer is written and clean, a clean one is read and valid |
| BufferCache.BCache.Bread | bio.c:96-106 | Returns the last value written to the block in a locked buffer, the one that holds it or one that could be recycled; panics exactly when there is neither; no other buffer changes |
| BufferCache.BCache.MarkDirty | log.c:228-231 | A modified buffer that is marked may be released without losing its update |
| BufferCache.BCache.Bwrite | bio.c:109-116 | The block's current value is on disk |
| BufferCache.BCache.Brelse | bio.c:120-141 | The count drops; at zero the buffer becomes most recently used and the order of the others is kept |
| CommitCode.SpareCount | bio.c:78-92 | When commit starts, no buffer can be recycled if and only if the log's entries and the clean buffers that others hold add up to NBUF; a log of LOGSIZE entries leaves none |
| CommitCode.ReadPair | log.c:182-183 | The two breads of a round find buffers exactly if one can be recycled and the home block is in a buffer that is in use, or two can be recycled; no other buffer changes |
| CommitCode.CopyOne | log.c:182-187 | One round of write_log puts the home block's current contents into its log block on disk, and the buffers are as before but for one that is free again |
| CommitCode.InstallOne | log.c:74-80 | One round of install_trans, in commit or in recovery, puts the log block's contents home and leaves the home block's buffer unpinned |
| CommitCode.WriteLog | log.c:177-190 | The loop is a run of the protocol's copy steps; it wants for a buffer in the first round, with nothing written, or never |
| CommitCode.InstallTrans | log.c:69-82 | The loop never wants for a buffer, after write_log or at boot, and is a run of the protocol's install steps; in commit it changes no block's contents |
| CommitCode.Commit | log.c:192-202 | Panics with "bget: no buffers", nothing written, exactly when the log is not empty and its entries and the clean buffers others hold add up to NBUF, so always for LOGSIZE entries; otherwise the disk has gone through the steps of the protocol, no buffer is pinned, the disk equals the cache, and no home block's contents changed |
| CommitCode.RecoverFromLog | log.c:115-122 | On the cache as binit leaves it recovery never wants for a buffer; the disk goes through the steps of the protocol and equals the cache at the end |
| CommitCode.FillCache | bio.c:61-141 | From binit on, bread, log_write's mark and brelse lead to a cache with the given number of pinned blocks and every other buffer held by a reader |
| CommitCode.CommitStops | log.c:177-202 | For every number of logged blocks up to LOGSIZE there is a reachable group commit, and a cache built by bread, log_write and brelse, in which commit panics |
| DiskFormat.BitChanges | fs.c:66-68 | Setting or clearing one bit by mask arithmetic changes that bit only |
| DiskFormat.WordChanges | fs.c:389-393 | Writing one indirect entry changes that entry only, read back byte by byte |
| BlockMap.ExactlyOnce | fs.c:56-95 | A bitmap bit is set if and only if the block is metadata or some direct slot, indirect pointer or indirect entry refers to it, and no two slots refer to the same block |
| BlockMap.MarkBitOnly | fs.c:66-68 | The bit arithmetic of balloc and bfree changes the use of one block only, across bitmap blocks |
| BlockMap.AllocKeeps | fs.c:56-78 | A fresh block, zeroed and marked, is owned by nobody yet and changes no reference |
| BlockMap.AttachKeeps | fs.c:372-400 | Storing the block's number in one slot makes that slot its one owner and changes no other reference |
| BlockMap.DataKeeps | fs.c:498-504 | Writing a data block leaves ownership and all references alone |
| BlockMap.TruncKeeps | fs.c:407-435 | With the file's bits clear and its slots zero, the other files own exactly the remaining blocks |
| InodeBlocks.PutGet | fs.c:225-233 | An inode stored as a 64-byte record of an inode block reads back field by field, and the other seven records of the block are as before |
| InodeBlocks.StoreAt | mkfs.c:183-208 | Writing one inode into the inode blocks changes no other inode, in the same block or elsewhere |
| InodeBlocks.StoreSaves | fs.c:216-236 | After a change of one in-memory inode its iupdate brings the inode blocks up to date, and without it they are up to date only if nothing changed |
| FileSystem.FileSys.constructor | fs.c:298-308 | Every inode in memory is the one read from its record in the inode blocks |
| FileSystem.FileSys.FirstFree | fs.c:63-76 | The nested scan returns the first block whose bit is clear, or none is clear |
| FileSystem.FileSys.Balloc | fs.c:56-78 | Allocates the first block nobody owns, zeroed; it fails only when every data block is owned |
| FileSystem.FileSys.Grow | fs.c:378-394 | A new block is owned by the given slot alone, and no other file changes |
| FileSystem.FileSys.Bmap | fs.c:372-400 | Returns the block the slot refers to, allocating it and the indirect block if needed; ownership is kept, and nothing is allocated or logged when the block was there |
| FileSystem.FileSys.BmapIndirect | fs.c:383-397 | The same through the indirect block |
| FileSystem.FileSys.Bfree | fs.c:81-95 | Panics if and only if the block is free; otherwise clears its bit and no other |
| FileSystem.FileSys.Iupdate | fs.c:220-236 | The inode's record in its inode block reads back as the in-memory inode with type, device numbers and link count, and every other inode's record, those in the same block included, is as before |
| FileSystem.FileSys.TruncDirect | fs.c:414-419 | The loop frees exactly the file's direct blocks and never a free one |
| FileSystem.FileSys.TruncEntries | fs.c:422-427 | The loop frees exactly the blocks in the indirect block and never a free one |
| FileSystem.FileSys.Itrunc | fs.c:407-435 | Frees exactly the file's blocks, each once, so "freeing free block" is out of reach; all other files keep their blocks and data, and the inode blocks stay up to date |
| FileContents.StepByte | fs.c:498-504 | One part of a write changes the bytes it covers and no other byte of the file, holes reading as zeroes before and after |
| FileContents.WrittenPart | fs.c:498-504 | One part of a write stores its bytes in the file and leaves every other file's inode, slots and data alone |
| FileContents.WrittenThen | fs.c:498-504 | The parts of a write add up to one write |
| FileContents.WrittenContent | fs.c:481-511 | What the loop has stored is the old contents with the new bytes spliced in; other files keep theirs; a file without holes has none still |
| FileContents.Readi | fs.c:452-476 | Fails exactly for an offset past the end or a wrapping sum; otherwise returns the clipped slice of the file's contents, holes as zeroes, and every file keeps its contents; something is allocated exactly if the range has a hole, and the inode on disk is out of date afterwards exactly if one of the inode's own addresses was filled in |
| FileContents.Writei | fs.c:481-511 | Fails exactly by the three tests; otherwise splices the bytes at the offset, sets the size to the maximum, leaves other files alone, keeps ownership, and logs no more than LogCost blocks, one more for a file with holes; the inode on disk stays up to date exactly if the size grew or no address was filled in |
| FileContents.TallyBound | file.c:127-133 | Blocks logged are at most the blocks touched, the bitmap blocks of new ones, the indirect block and its bitmap block |
| FileContents.ChunkFits | file.c:127-133 | A chunk of at most ((MAXOPBLOCKS-1-1-2)/2)*512 bytes costs at most MAXOPBLOCKS log blocks, whatever its offset |
| FileContents.WriteChunk | file.c:140-145 | Each transaction of filewrite splices its chunk, leaves every other file as it was and logs every block it changes, at most MAXOPBLOCKS of them, one more only in a file with holes |
| FileContents.SpliceTwice | file.c:135-152 | Writing in two chunks is writing the whole |
| FileContents.Filewrite | file.c:117-156 | Chunks together splice all the data and advance the offset, every other file keeps its contents, every transaction stays within its allowance if the file has no holes, and after each the file system is consistent with exactly the chunks so far |
| FileCrash.ClosedPrefix | log.c:145-174 | A prefix of a run of operations in which nothing is open consists of whole operations |
| FileCrash.RunOperation | log.c:125-233 | One operation of at most MAXOPBLOCKS blocks by a process alone passes every test, adds exactly itself to the history and is on disk when end_op returns |
| FileCrash.IntactHolds | fs.c:287-311 | The image of a consistent file system, its inode blocks in their place, mounts as that file system |
| FileCrash.TransactionFits | file.c:140-145 | The blocks that a transaction gave to log_write, written within one operation of the log, turn one image of the disk into the next |
| FileCrash.FilewriteCrashes | file.c:117-156 | With crashes anywhere in a run of filewrite's transactions on the log, the recovered disk is a consistent file system in which the file holds the first so many chunks of the data and nothing of the next, and every other file is as it was |
| Mkfs.BitmapBits | mkfs.c:237-251 | The bitmap written last marks exactly the blocks below freeblock |
| Mkfs.Image.Take | mkfs.c:271-286 | Handing out freeblock++ is an allocation in fs.c's sense |
| Mkfs.Image.AppendLoop | mkfs.c:268-294 | The loop stores exactly the given bytes at the end of the file |
| Mkfs.Image.Iappend | mkfs.c:255-297 | The file's contents become the old ones followed by the data, no hole appears, other files keep theirs, and the inode blocks hold the new inode |
| Mkfs.Image.Ialloc | mkfs.c:223-235 | The next inode is an empty file of the given type with one link, in memory and in the inode blocks |
| Mkfs.Image.Balloc | mkfs.c:237-251 | Writing the bitmap makes the image the file system that was being built |
| Mkfs.Image.AddFile | mkfs.c:130-156 | One argument, its name without a leading underscore and without a slash, becomes an inode of type T_FILE with one link and exactly its bytes, and an entry at the end of the root directory |
| Mkfs.EntriesAt | mkfs.c:147-150 | The k-th file's entry in the root directory holds its inode number and the first 14 characters of its name |
| Mkfs.Image.FixRoot | mkfs.c:158-163 | Only the root's size changes, to the next multiple of the block size above it, and the inode blocks follow |
| Mkfs.RootHole | mkfs.c:158-163 | The rounding pads the root with zeroes; every byte is then backed by a block if and only if its size was not already a multiple of the block size |
| Mkfs.MakeImage | mkfs.c:94-165 | The image satisfies fs.c's ownership invariant, its inode blocks hold every inode with type and link count, every file's contents are the bytes given, and the root directory is ".", ".." and one entry per file, padded with zeroes |
| Mkfs.ReadBack | mkfs.c:94-165 | An image made, mounted from its inode blocks and read through readi gives back the bytes of the file or the entries of the root directory, clipped; only the root's hole can make the read allocate |
| SleepWakeup.OwesEnough | sleeplock.c:34-42 | No access ends another's reason to wait without a wakeup on that channel to follow under the same lock |
| SleepWakeup.StepDiscipline | proc.c:934-970 | Every step keeps each lock with one holder, where its program counter says, and only switched-out processes SLEEPING |
| SleepWakeup.ScanEmpties | proc.c:975-994 | wakeup leaves nobody asleep on the channel or past deciding to sleep on it |
| SleepWakeup.StepCovered | proc.c:934-994 | Every step but the return of a killed writer that owes readers a wakeup keeps each sleeper covered: it must wait, or a wakeup is owed |
| SleepWakeup.NoLostWakeup | proc.c:934-994 | In every run, with the object's lock free, whoever sleeps on a channel must wait; for &nread in every run in which no killed writer returned with its wakeup unpaid |
| SleepWakeup.SleepersHaveReason | sleeplock.c:22-42 | A sleeper on a sleep lock implies it is locked, on the log that it commits or lacks space, on &nwrite that the pipe is full with its read end open |
| SleepWakeup.KilledReturnExactly | pipe.c:85-89 | A killed writer's return keeps readers covered in all such runs if and only if it has put in no byte since it last called wakeup(&nread) |
| SleepWakeup.ReaderStranded | pipe.c:85-89 | A complete run from a new pipe to a reader asleep on a full pipe with nobody to wake it |
| PipeRing.CountersTell | pipe.c:85-114 | The 32-bit counters tell exactly when the ring is full or empty and how many bytes it holds, also after they wrap |
| PipeRing.PutHolds | pipe.c:93 | A byte written goes behind all buffered ones and overwrites none |
| PipeRing.GetHolds | pipe.c:116 | The byte read is the oldest one buffered |
| PipeRing.StepFifo | pipe.c:78-121 | Every step of any reader, writer or closer keeps first-in first-out order |
| PipeRing.PipeIsFifo | pipe.c:78-121 | In every interleaving delivered bytes followed by buffered ones are the accepted ones in order, and the counters' difference is within 0..PIPESIZE |
| PipeRing.PipeBuffer.WriteBurst | pipe.c:84-94 | The loop accepts the bytes in order and stops only at the end or at a full ring, where it fails exactly if the read end is closed or the writer killed, and sleeps otherwise |
| PipeRing.PipeBuffer.ReadBurst | pipe.c:113-117 | The loop returns the oldest bytes in order and stops only at n or at an empty ring |
| PipeRing.PipeBuffer.Close | pipe.c:59-75 | One end closes, and the page is to be freed exactly when both are closed |
| Processes.KeepsCpus | proc.c:883-899 | A process on a CPU is RUNNING or holds ptable.lock, and is on one CPU only |
| Processes.KeepsForks | proc.c:322-364 | Processes in fork have EMBRYO slots of their own, whose parent is set only by them |
| Processes.KeepsParents | proc.c:369-416 | No step leaves a started process without a living parent |
| Processes.KeepsWaiters | proc.c:395-407 | No step leaves a process asleep in wait with a zombie child, also when init adopts one |
| Processes.KeepsTimes | trap.c:50-74 | No step charges a process more than the time since its creation |
| Processes.StepKeeps | proc.c:322-521 | Every step keeps all of the above |
| Processes.ParentsLive | proc.c:369-416 | In every reachable state each started process but init has a parent that is neither ZOMBIE, UNUSED nor EMBRYO |
| Processes.NoZombieMissed | proc.c:420-521 | In every reachable state nobody sleeps in wait or waitx while it has a zombie child |
| Processes.ReapedOnce | proc.c:484-510 | A zombie that is reaped is on no CPU and was not reaped before; waitx's waiting time is not negative |
| Processes.ZombieStays | proc.c:409-416 | A zombie stays one until its own parent reaps it, so the panic at the end of exit is out of reach |
| Processes.TimeAccounting | trap.c:50-74 | rtime + iotime <= ticks - ctime for every slot, all charges together are at most ticks, and iotime is never charged |
| Processes.ExitSlots | proc.c:393-412 | exit's critical section is one change of the table, slot by slot |
| Processes.Table.Wakeup1 | proc.c:975-986 | The scan makes exactly the sleepers on the channel RUNNABLE |
| Processes.Table.AdoptAll | proc.c:398-407 | The loop with its wakeup calls on the way hands over all children and wakes init exactly if one is a zombie |
| Processes.Table.ExitScan | proc.c:393-412 | The statements from the first wakeup1 to etime give exactly the table of the protocol's exit step |
| Processes.Table.WaitScan | proc.c:427-461 | The scan reaps the first zombie child and reports its times, or finds that there is none and whether to give up or sleep |
| Processes.Table.KillPid | proc.c:999-1021 | Marks the first process with the pid, waking it if asleep, or reports that there is none |
| KRHeap.InsertGood | umalloc.c:33-42 | Freeing with coalescing keeps the list address-ordered, disjoint and fully coalesced |
| KRHeap.Relinked | umalloc.c:33-42 | The header writes at the end of free link exactly that list in a circle |
| KRHeap.GapTest | umalloc.c:30-32 | free's stopping test holds exactly at the gap the block belongs in |
| KRHeap.Freed | umalloc.c:24-44 | free covers the same units with the same or fewer blocks, each live or on the list |
| KRHeap.Conservation | umalloc.c:24-90 | Units obtained from sbrk are exactly those of live and of listed blocks, none in both and none in two live blocks |
| KRHeap.NUnitsFit | umalloc.c:69 | A block of nunits holds nbytes besides its header if and only if nbytes <= 2^32 - 8; beyond that the sum wraps to one unit |
| KRHeap.Heap.constructor | umalloc.c:21-22 | Before the first call nothing is live and nothing was obtained |
| KRHeap.Heap.FindGap | umalloc.c:30-32 | The search ends, at the header after which the block belongs by address |
| KRHeap.Heap.Relink | umalloc.c:33-42 | Only the headers of the block and of its predecessor change |
| KRHeap.Heap.Free | umalloc.c:24-44 | The block leaves the live ones, the list is the old one with it inserted and merged, and no unit is lost |
| KRHeap.Heap.Morecore | umalloc.c:46-61 | At least 4096 units are added and one list element then has at least nu units; a failing sbrk changes nothing |
| KRHeap.Heap.Take | umalloc.c:75-82 | The exact block leaves the list, or the end of a larger one is cut off |
| KRHeap.Heap.Malloc | umalloc.c:63-90 | Returns a block disjoint from all live ones; calls morecore at most once, and only if no listed block is large enough; fails only if sbrk does |
| PageTables.FlagsCopy | vm.c:330-335 | An entry built from another's flags has the same flags |
| PageTables.PushChained | kalloc.c:72-74 | kfree's two writes put the page at the head of the list linked through the pages |
| PageTables.PopChained | kalloc.c:89-91 | kalloc's read takes the head off |
| PageTables.NewTable | vm.c:41-53 | A new table keeps every page used by at most one directory slot |
| PageTables.SetUser | vm.c:73 | A user entry makes its page used at that place only |
| PageTables.ClearUser | vm.c:269-276 | Freeing a user page and clearing its entry leaves all other uses |
| PageTables.Vm.constructor | kalloc.c:46-53 | freerange puts every page on the list once |
| PageTables.Vm.Kalloc | kalloc.c:82-95 | Takes the first free page; 0 exactly if none is free |
| PageTables.Vm.Kfree | kalloc.c:59-77 | The page goes to the head of the list and no other page changes |
| PageTables.Vm.WalkPgdir | vm.c:35-55 | Finds the table, or makes a zeroed one, with no address space looking different; 0 only without alloc or without free pages |
| PageTables.Vm.MapUser | vm.c:68-78 | Exactly one entry of one address space changes; it fails, changing nothing, only for want of a table page |
| PageTables.Vm.MapRegion | vm.c:60-80 | The loop maps exactly the region |
| PageTables.KmapOk | vm.c:103-115 | The regions of kmap lie in the kernel's part and do not overlap, so mappages never panics there |
| PageTables.Vm.SetupKvm | vm.c:118-136 | A directory that maps kmap and nothing else; on failure the free-page set is exactly what it was |
| PageTables.Vm.DeallocUvm | vm.c:255-279 | Frees and unmaps exactly the user pages between the two sizes, skipping missing tables |
| PageTables.Vm.FreeVm | vm.c:283-298 | The free-page set grows by exactly the pages of the address space; other address spaces and data are unchanged |
| PageTables.Vm.AllocUvm | vm.c:221-249 | Maps zeroed user pages between the two sizes and nothing else; on failure what is mapped where is as before |
| PageTables.Vm.CopyPage | vm.c:325-339 | One page is copied with its flags to a page of the child's own |
| PageTables.Vm.CopyUvm | vm.c:315-345 | The child's pages below sz are copies with equal flags on pages nobody used; the parent is unchanged; on failure the free-page set is exactly what it was |
| PageTables.DeepCopy | vm.c:315-345 | After copyuvm parent and child agree on every word and flag below sz and share no page |
| ShellGrammar.Lex | sh.c:265-308 | A word token is a maximal run of word characters, and a token moves the cursor unless the input is used up |
| ShellGrammar.ParseLine | sh.c:344-359 | The parser ends on every input, and its cursor moves forward within it |
| ShellRoundTrip.ArgsParse | sh.c:429-445 | Words printed with spaces between them are lexed back one by one |
| ShellRoundTrip.OneRedir | sh.c:374-397 | A printed redirection is parsed to its file and mode |
| ShellRoundTrip.BlockParses | sh.c:399-413 | A parenthesised line is the command inside it, wrapped in the redirections behind it |
| ShellRoundTrip.PrintParses | sh.c:344-446 | A printed command parses to itself at any place in any input, and parsing goes on behind it |
| ShellRoundTrip.RoundTrip | sh.c:327-342 | parsecmd undoes the fully parenthesised printing of every well-formed command tree |
| ShellRoundTrip.LineLexed | sh.c:344-446 | Every word of a parsed command is a token of the input, argument lists are shorter than MAXARGS, and redirections have one of the two modes |
| ShellRoundTrip.Canonical | sh.c:327-342 | Whatever the parser accepts, the printed form of what it understood is understood the same way |
| ShellCode.Parser.GetToken | sh.c:265-308 | The loops return the token of the grammar and leave the cursor behind it |
| ShellCode.Parser.PeekFor | sh.c:310-320 | Skips spaces and looks at one character |
| ShellCode.Parser.Redirections | sh.c:374-397 | The loop collects the redirections of the grammar, or panics with it |
| ShellCode.Parser.Arguments | sh.c:429-445 | The loop collects the arguments and redirections of the grammar, or panics with it |
| ShellCode.Parser.ExecCmd | sh.c:415-446 | As the grammar's parseexec, panics included |
| ShellCode.Parser.Block | sh.c:399-413 | As the grammar's parseblock, panics included |
| ShellCode.Parser.PipeLine | sh.c:361-372 | As the grammar's parsepipe |
| ShellCode.Parser.Line | sh.c:344-359 | As the grammar's parseline |
| ShellCode.NulTerminate | sh.c:449-493 | Exactly the characters at word ends become NUL |
| ShellCode.WordsReadBack | sh.c:449-493 | After nulterminate each argv and file pointer, read as a C string, is the token that was lexed |
| ShellCode.RunParseCmd | sh.c:327-342 | The tree of the grammar, with every word terminated in place; a syntax error leaves the buffer alone |
| Grep.ManyMatches | grep.c:98-106 | A starred character matches a text if and only if some run of fitting characters is followed by a match of the rest |
| Grep.OneMatches | grep.c:93-94 | A single character matches if and only if it fits the first one and the rest matches |
| Grep.Match | grep.c:72-82 | Returns 1 if and only if some place of the text (the first only after '^') starts a word of the pattern's language, reaching the end if the pattern ends in '$' |
| Grep.MatchHere | grep.c:84-96 | Returns 1 if and only if a prefix of the text is in the language |
| Grep.MatchStar | grep.c:98-106 | Returns 1 if and only if the star and the rest match here |

## Left out

- The MLFQ, PRIORITY and FCFS policies of proc.c with their queues and ageing: their invariants are not kept by the code, or are a single scan. The scheduler step picks any RUNNABLE process.
- Directories, path lookup, link counts, the inode cache and its locks (fs.c, sysfile.c): their global equations need conditions the code does not maintain.
- The T_DEV branches of readi and writei, and the non-file branches of filewrite: they only dispatch.
- The file system classes hold the inode blocks byte by byte beside the other blocks; FileCrash puts them in their place among the blocks of the disk.
- The superblock's encoding and mkfs's byte-order conversions: the geometry is a constant record with mkfs's numbers.
- Device drivers, boot code, interrupts other than the timer, and the implementation of spin locks: acquire and release are atomic steps.
- exec.c, system call argument fetching, console output, the other user programs, grep's line buffer and sh.c's runcmd: I/O and process plumbing.
- inituvm, loaduvm, clearpteu, uva2ka and copyout of vm.c: they read or write through mappings proved correct elsewhere.
- Interleaving of several processes inside one file-system call: the file-system classes model one call at a time, as the inode lock and the transaction make it.
- RedoLog.AtomicIff: the disk has more than LOGSIZE blocks behind the log area; so do NoPanicIff, OverflowRun and FullLogStopsAbsorbedWrite.
- RedoLog.StepKeeps: each operation logs at most MAXOPBLOCKS distinct blocks, which is what begin_op's reservation assumes; for filewrite that is proved in FileContents. Buffers that readers hold are not part of the protocol; that commit may stop for want of one is a crash there.
- LogCode.Log.BeginOp: one pass of its loop; sleeping until admitted is in SleepWakeup.
- LogCode.Log.LogTest: the caller is in a transaction or no operation is outstanding; a caller outside that passes because another's operation is outstanding is not modelled.
- LogCode.Log.WriteLog: over a map of changed blocks; the panic when readers hold the buffers that the log leaves is in CommitCode.WriteLog.
- LogCode.Log.Commit: over a map of changed blocks; the panic when readers hold the buffers that the log leaves is in CommitCode.Commit.
- LogCode.Log.LeaveOp: its wakeup of sleepers on the log is in SleepWakeup.
- LogCode.Log.EndOp: its two wakeups are in SleepWakeup.
- BufferCache.BCache.Bget: waiting for the buffer's sleep lock is not part of it; the lock protocol is in SleepWakeup.
- BufferCache.BCache.Bread: the block's buffer is not locked by another process; waiting for it is in SleepWakeup.
- CommitCode.ReadPair: the home block's buffer is not locked by a reader; waiting for it is in SleepWakeup.
- CommitCode.CopyOne: the home block's buffer is not locked by a reader; waiting for it is in SleepWakeup.
- CommitCode.InstallOne: the home block's buffer is not locked by a reader; waiting for it is in SleepWakeup.
- CommitCode.WriteLog: a log that outgrew an area smaller than LOGSIZE and still has fewer than LOGSIZE entries is left to RedoLog.OverflowRun.
- CommitCode.Commit: the same; and nobody takes or releases a buffer while it runs, and the log area is used by the log alone.
- FileCrash.FilewriteCrashes: the transactions follow one another in the log; the operations of other processes between them are not modelled, and the file has no holes.
- FileContents.Writei: when balloc finds no free block the kernel panics; the model then promises only that every data block is owned.
- FileContents.Readi: the same holds for a read of a hole.
- FileContents.Filewrite: the file offset and inode are parameters; locking and the file structure are not modelled.
- Mkfs.MakeImage: at most NINODES - 2 files, which mkfs itself does not check; opening and reading the input files is a parameter.
- Mkfs.ReadBack: at most NINODES - 2 files, as in MakeImage.
- SleepWakeup.StepDiscipline: a pipe is a count of buffered bytes there; its contents are in PipeRing. A pipe's read end is closed only when no process is inside piperead on it, as file reference counts guarantee.
- Processes.StepKeeps: allocation picks any UNUSED slot and wait any zombie child, which includes the first one the code takes; kernel stacks, address spaces and open files are not part of the slot.
- KRHeap.Heap.Malloc: requests whose size in bytes reaches 2^31 are excluded, because sbrk's argument would turn negative; payload bytes are not modelled; `base` lies below the heap.
- PageTables.Vm.MapRegion: page-aligned regions, as all callers pass; pointers in page-table memory and on the free list are page numbers.
- PageTables.Vm.AllocUvm: virtual pages above the old size are not mapped when it is called; otherwise mappages panics.
- PageTables.Vm.CopyUvm: every page below sz is mapped when it is called; otherwise copyuvm panics.
- ShellCode.Parser.ExecCmd: the tree is built once its arguments are known, where the code fills in the argument vector of a node that redirection nodes already point to; a node is a value, so the sharing is not captured.
- Machine integers are unbounded except where wrapping matters: pipe counters, file offsets and malloc's sizes are 32-bit.
