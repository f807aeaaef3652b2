# A verified model of xv6 with kernel threads

This project models the parts of an xv6 kernel and its user programs whose correctness depends on more than one function:
the redo log and the buffer cache, files and directories, the user heap, page tables and physical memory, the blocking
protocols, the user-level thread scheduler, the shell's parser and grep's matcher. It is written for Dafny 4.11; `dafny verify
dfyconfig.toml` checks all of it.

Code that updates state in place is modelled by classes whose fields are the source's variables, with the same loops and
branches, and is proved against functions on values. Protocols among several threads are state machines whose steps are what a
thread does between two points at which another can get in; what is proved of them holds in every run. Panics are outcomes: a
method that returns `ok == false` has halted the machine.

## How it is laid out

| files | what they model |
|---|---|
| `Common` | small shared definitions |
| `Disk`, `RedoLog`, `Log` | the device, the writes of commit and recovery with crashes anywhere, and log.c as it runs |
| `CommitMachine`, `GroupCommit`, `LogLimits`, `LogRefinement`, `LogProgress` | runs of interleaved operations, commits, crashes and recoveries: the steps, what every run keeps, which runs panic and which log sizes serve, that the runs make the listed writes, and that commits begin and end |
| `BufferRing`, `BufferCache`, `CacheRefinement` | the doubly linked list of buffers, bio.c over it, and that it does what the runs of the log assume of a cache |
| `Bitmap`, `FileBlocks`, `BlockOwners`, `FileMap`, `FileSystem`, `File` | the free map, blocks as bytes and as block numbers, who owns each block, file contents, fs.c's inode operations, file.c |
| `InodeCache`, `Links`, `Namespace`, `Lookup` | the inode cache, the directory tree with its link counts, the system calls that change names, and what names stand for after them |
| `DirBytes`, `Directory`, `NameCalls` | directory entries as bytes of a file, dirlookup and dirlink over readi and writei, and the same system calls over inodes and blocks, one transaction each |
| `FreeList`, `Heap`, `Malloc` | the free list as a value, the headers in memory, and umalloc.c |
| `PageTables`, `Vm` | two-level page tables and the use of every frame, and vm.c over kalloc.c |
| `RingQueue`, `Semaphore`, `SemaphoreCalls` | the semaphore's queue and protocol, and its calls counted from outside |
| `Interrupts`, `SleepLock`, `SleepLockCalls` | pushcli and popcli, sleep locks with sleep, wakeup and kill, and where each call ends |
| `Pipe`, `PipeProtocol`, `PipeCalls` | a pipe's ring buffer, its readers and writers, and which bytes come from and go to which call |
| `UThread` | the user-level scheduler |
| `ShellTokens`, `ShellGrammar`, `ShellCommands`, `Shell`, `Grep` | the shell's tokens and grammar, which tokens spell which command, the parser, and the regular expression matcher |

Three things recur. Ownership is an inverse map: `owner` from blocks to inode slots, `holder` from heap units to blocks, `used`
from frames to their place. That each thing has one owner is then a statement about single entries. Lists threaded through
memory are tied to an inductive value (`FreeList`, `Order`, `Frames`) by a predicate that follows the pointers. And contracts
name the whole change: what is new and what is as before.

## Facts about the code that the statements respect

- log_write tests the log's size before it takes the lock, so operations can pass the test together and then append
  together. In a log area of two to LOGSIZE - 1 blocks the last of them lands outside the area and commit writes over the block
  behind it (`LogLimits.SmallAreaBreaks`); all runs are atomic if and only if the area has at least LOGSIZE blocks or only its
  header (`LogLimits.AtomicSizes`).
- No log size serves (`LogLimits.LogSizes`). An operation within its budget can be refused a block that is new to the log
  if and only if the area has at most LOGSIZE blocks, header included, as mkfs makes it (`LogLimits.MkfsLog`): admission control
  counts on one block more. And a commit can find every one of the NBUF buffers dirty, with no thread holding one, if and
  only if the area has at least LOGSIZE - 1 blocks.
- The same test comes before the search for the block in the log, so logging a block again can panic when the log is full
  (`LogLimits.RelogPanics`); `LogLimits.PanicsInRuns` gives the exact conditions of all panics.
- Every buffer starts as block 0 of device 0, so keys are unique only for other devices (`BufferCache.UniqueKeys`).
- create and link keep link counts exact if and only if the directory still has a link (`Namespace.CreateExact`,
  `Namespace.LinkExact`); `Namespace.RemovedDirExample` and `Namespace.RemovedDirLink` are cases where they do not.
- open with O_CREATE of ".." in a removed directory whose parent has been freed panics in ilock (`NameCalls.Create`, `NameCalls.FreedIsDotDot`).
- malloc's two 32-bit computations are right if and only if the request is at most 2^31 - 16 bytes (`Malloc.RequestServed`).
- deallocuvm's skip over an absent table would wrap in the last table of the address space (`Vm.SkipForward`); its callers stay
  below KERNBASE.
- copyuvm loses a frame if and only if there is exactly one frame too few and the stack page needs a table of its own
  (`Vm.Memory.Copyuvm`); `Vm.LostFrame` is such a run.
- kfree of a frame that is free already makes the free list a cycle (`Vm.DoubleFree`).
- A semaphore's queue drops a thread in some run if and only if more than seven threads use it (`Semaphore.QueueOverflows`),
  and a dropped thread sleeps for ever (`Semaphore.LostForever`). A negative initial count is let through
  (`Semaphore.InitialCount`).
- A killed writer that gives up on a full pipe does not wake the readers: a reader can sleep beside a full buffer
  (`PipeProtocol.LostWakeup`), exactly in the runs that `PipeProtocol.SleepersExact` describes.
- The comment in uthread.c says that a thread at the very least schedules itself; the code never switches to the current slot
  (`UThread.Target`).

## Model

| member | source | states |
|---|---|---|
| RedoLog.CrashAtomicity | log.c:69-202 | for any crash inside commit and any chain of crashes inside the recoveries that follow, a completed recovery leaves every home block as before the transaction or every one as after it, the latter exactly when the header write happened |
| RedoLog.RecoveryRestarts | log.c:115-122 | a recovery cut off after any number of its writes and begun again ends in the same disk |
| RedoLog.RecoveredIsClean | log.c:115-122 | a completed recovery leaves an empty log, so recovering again changes nothing |
| RedoLog.CommitEndsAsRecovery | log.c:192-202 | the writes of commit are the log blocks, the header, and then exactly what recovery would write from there |
| RedoLog.CommittedRecovers | log.c:69-122 | once the header is on disk, recovery gives every named block its logged contents and leaves the others alone |
| RedoLog.CutBeforeHeader | log.c:176-202 | cut off before the header write, recovery leaves every home block as it was |
| RedoLog.CutAfterHeader | log.c:176-202 | cut off at or after the header write, recovery completes the transaction |
| RedoLog.ChainRecovers | log.c:115-122 | any number of recoveries cut off one after the other changes nothing for the one that completes |
| RedoLog.InstallOneMore | log.c:69-82 | copying one more log block home does not change what recovery yields |
| RedoLog.AllInstalled | log.c:69-82 | when every logged block is home, recovery would change no home block |
| Log.RedoLogger.constructor | log.c:53-65 | initlog starts with nothing cached and nothing logged |
| Log.RedoLogger.InstallTrans | log.c:69-82 | install_trans makes exactly the home writes of the header in memory, in order, through the buffers |
| Log.RedoLogger.ReadHead | log.c:85-96 | read_head loads the count and the block numbers of the header on disk |
| Log.RedoLogger.WriteHead | log.c:101-113 | write_head changes the header block on disk to the list in memory and no other block |
| Log.RedoLogger.RecoverFromLog | log.c:115-122 | recover_from_log makes exactly the recovery's writes and leaves the recovered disk, with an empty log |
| Log.RedoLogger.WriteLog | log.c:177-190 | write_log makes exactly the writes of the cached contents to the log area, in header order |
| Log.RedoLogger.Commit | log.c:192-202 | commit makes exactly the writes of CommitWrites in order, ends with the transaction on disk and the log empty, and does nothing for an empty log |
| Log.RedoLogger.LogWrite | log.c:213-233 | log_write panics exactly on a full log or outside a transaction, else caches the data and lists the block once |
| CommitMachine.NoOverrun | log.c:213-231 | in every run and for every log size log_write stays inside the header's array of block numbers, also when several operations pass the size test before any of them takes the lock |
| GroupCommit.RunsAreAtomic | log.c:125-233 | with a log area of at least LOGSIZE blocks, or of its header alone: in every interleaving of operations, commits, crashes and recoveries what recovery would make of the disk is the writes up to the last commit |
| GroupCommit.CommitsAreWhole | log.c:125-233 | in every run and for every log size no operation has writes on both sides of the last commit, and no operation is open while a commit runs |
| GroupCommit.ReadsSeeLatestWrite | bio.c:78-106 | for the same areas as RunsAreAtomic: in every run, once recovery is over, a read returns the last write logged to the block or the disk's contents, whatever was recycled |
| GroupCommit.CommitPoint | log.c:192-199 | in every run the durable state moves only at the nonzero header write, to all writes so far, with no operation open |
| GroupCommit.HomeWaitsForHeader | log.c:192-202 | for the same areas as RunsAreAtomic: in every run a home block changes on disk only while the header on disk names it |
| GroupCommit.CommittedStays | log.c:115-202 | what has committed is never lost by anything that happens later |
| LogLimits.AtomicSizes | log.c:213-231 | all runs are atomic if and only if the log area has at least LOGSIZE blocks or only its header |
| LogLimits.SmallAreaBreaks | log.c:177-231 | for every other size a run, within budget, in which operations race past the size test and commit overwrites the block behind the log |
| LogLimits.NewBlockFits | log.c:125-141 | in every run whose operations keep to MAXOPBLOCKS, begin_op's admission leaves room in the header for any block not yet in the log, and room in the log area if it holds more than LOGSIZE blocks |
| LogLimits.PanicsInRuns | log.c:146-233 | in every run, within budget or not, the panics are exactly these: log_write's test on a full log, and a bget, a thread's or one of commit's, for which the dirty and the held buffers leave none; "log.committing" is unreachable, and recovery never panics |
| LogLimits.QuietCommitPanics | log.c:177-202 | while no thread holds a buffer, commit panics exactly when it begins with NBUF blocks |
| LogLimits.NewBlockPanics | log.c:213-231 | a run within budget that is refused a new block, for every area of at most LOGSIZE blocks |
| LogLimits.FullCommitPanics | log.c:177-202 | a run within budget whose commit finds no buffer, for every area of at least LOGSIZE - 1 blocks |
| LogLimits.RelogPanics | log.c:213-231 | the size panic is reachable within budget, by logging a block again when the log is full |
| LogLimits.LogSizes | log.c:125-233 | some run refuses an operation within budget a new block if and only if the log area has at most LOGSIZE blocks; in some run, and then in one within budget, commit finds no buffer although no thread holds one if and only if it has at least LOGSIZE - 1 |
| LogLimits.MkfsLog | mkfs.c:94-102 | on the disk that mkfs makes, a run within budget in which the thirtieth block panics |
| LogRefinement.CommitMakesTheWrites | log.c:176-202 | for the same areas: from any state of a run in which a commit of fewer than NBUF blocks begins, whatever other threads do in between short of a crash, the commit's writes are exactly CommitWrites in order, one a step |
| LogRefinement.RecoveryMakesTheWrites | log.c:69-122 | likewise for the writes of recovery |
| LogProgress.IdleIsCommitted | log.c:146-172 | in every run and for every log size, whenever no operation is open and no commit or recovery runs, every write is committed and the log is empty: the last end_op commits, whatever buffers other threads hold |
| LogProgress.EndedIsDurable | log.c:115-172 | for the same areas as RunsAreAtomic: at such a moment recovery would yield every write of every operation that ended |
| LogProgress.CommitMoves | log.c:176-202 | while a commit runs its next step can be taken, and brings it one step nearer to its end |
| LogProgress.CommitsEnd | log.c:146-202 | whatever other threads do short of a crash, a commit has ended after exactly 2n + 3 steps of its own for n blocks, and not before |
| LogProgress.RecoveryMoves | log.c:69-122 | a recovery can always take its next step, never panics, and comes to an end |
| LogProgress.WaitsForSomebody | log.c:125-141 | in every run a begin_op that sleeps waits for a commit, a recovery or an open operation that can go on |
| BufferRing.UnlinkKeepsRing | bio.c:129-131 | taking a buffer out leaves one cycle over the others, consistent in both directions |
| BufferRing.PushKeepsRing | bio.c:132-135 | putting a buffer in at the head leaves one cycle, consistent in both directions |
| BufferRing.RingBackwards | bio.c:76-92 | following prev from the head visits the same buffers in reverse order |
| BufferCache.VictimIsLeastRecent | bio.c:76-92 | the buffer that bget recycles is free and every buffer used less recently is not |
| BufferCache.ViewRecycle | bio.c:78-91 | giving a free buffer to another block changes what no block reads as |
| BufferCache.RecycleExact | bio.c:78-91 | readers of the block that a recycled buffer held notice nothing if and only if it was logged or agreed with the disk |
| BufferCache.Bcache.constructor | bio.c:38-56 | binit leaves a ring of all NBUF buffers, none valid and none referenced |
| BufferCache.Bcache.Lookup | bio.c:67-74 | the first scan finds the buffer of the block exactly when there is one |
| BufferCache.Bcache.FindVictim | bio.c:76-92 | the second scan finds the least recently used free buffer, or none |
| BufferCache.Bcache.Bget | bio.c:61-93 | bget returns the one buffer of the block, recycling only a buffer that is neither referenced nor dirty; it panics exactly when there is none; no block reads differently |
| BufferCache.Bcache.Fill | bio.c:96-106 | bread's buffer holds what the block reads as: the pinned contents if there are any, else the disk's |
| BufferCache.Bcache.Modify | bio.c:96-116 | a holder's change is seen at that block and at no other |
| BufferCache.Bcache.Pin | log.c:225-231 | log_write's mark keeps the buffer from being recycled and changes nothing that is read |
| BufferCache.Bcache.Bwrite | bio.c:109-116 | bwrite puts the buffer's contents on disk and changes nothing that is read |
| BufferCache.Bcache.Unlock | bio.c:120-125 | giving up a buffer's lock keeps the cache coherent if and only if the holder has logged or written what it changed |
| BufferCache.Bcache.Unref | bio.c:127-140 | dropping a reference moves the buffer to the front when it was the last, and keeps the ring, the keys and every block's contents |
| CacheRefinement.ViewAgrees | bio.c:96-106 | readers of the buffers see what the machine's readers see |
| CacheRefinement.HoldingIsUnseen | bio.c:61-106 | locking a buffer and filling it from disk changes nothing that is read |
| CacheRefinement.FindingIsHold | bio.c:67-74 | bget of a cached block is the machine's Hold |
| CacheRefinement.MissingIsHold | bio.c:76-92 | bget of any other block is Recycle, if the victim held a block, followed by Hold |
| CacheRefinement.RecyclingIsRecycle | bio.c:76-91 | bget's recycling is the machine's Recycle |
| CacheRefinement.LoggingIsLogAppend | log.c:223-231 | changing and pinning a buffer is what LogAppend does to cache and dirty set |
| CacheRefinement.WritingIsBlockWrite | bio.c:109-116 | changing and writing a buffer is a block write |
| CacheRefinement.UnrefIsRelease | bio.c:127-140 | dropping a reference is the machine's Release |
| CacheRefinement.PanicIsNoBuffer | bio.c:61-93 | bget panics if and only if the machine's dirty and held blocks leave no buffer for the block |
| Bitmap.FirstClear | fs.c:62-77 | balloc's nested scan returns the first block whose bit is clear, or the size when there is none |
| Bitmap.MaskIs | fs.c:66 | the mask of a bit is 1 shifted to its place |
| Bitmap.SetBit | fs.c:66-68 | marking a block sets its bit in the map and changes no other bit |
| Bitmap.ClearBit | fs.c:87-92 | freeing a block clears its bit and changes no other bit |
| FileBlocks.WordSet | fs.c:390-393 | storing an entry of an indirect block changes that entry and no other |
| BlockOwners.SlotsDisjoint | fs.c:372-400 | the direct, indirect and listed blocks of all inodes are pairwise disjoint |
| BlockOwners.DirectOwned | fs.c:379-388 | a zeroed free block put in an empty direct or indirect slot keeps ownership exact and every other block's owner and bytes |
| BlockOwners.ListedOwned | fs.c:389-396 | the same for an entry of the indirect block |
| BlockOwners.ReleaseOne | fs.c:414-431 | freeing one slot takes exactly that slot's block out of the owned blocks |
| BlockOwners.TruncatedOwned | fs.c:407-435 | with every slot of the inode empty, ownership is exact again |
| FileSystem.Fs.constructor | fs.c:56-95 | a disk without files, on which only the system's own blocks are marked, has exact ownership |
| FileSystem.Fs.Balloc | fs.c:56-78 | balloc returns the first free data block, marked and zeroed; it panics exactly when no data block is free |
| FileSystem.Fs.Bfree | fs.c:81-95 | bfree clears the block's bit, and panics exactly when it is already clear |
| FileSystem.Fs.Bmap | fs.c:372-400 | bmap returns the block of the file block, allocating only when there is none; allocation keeps bitmap and ownership exact and every other slot and block, and logs every block it changes; it takes exactly the blocks that are missing, and panics exactly when there are too few or past the last file block |
| FileSystem.Fs.Iupdate | fs.c:220-236 | the disk inode becomes the cached one and no other changes |
| FileSystem.Fs.Itrunc | fs.c:407-435 | itrunc frees every block of the inode exactly once and nothing else, logs what it changes and nothing but bitmap blocks and the inode's block, and never hits "freeing free block" |
| FileSystem.Fs.Readi | fs.c:452-476 | readi returns the device's answer for a device; for a file the exact slice of the contents, or -1 when the range starts past the end or wraps; it never allocates and never logs |
| FileSystem.Fs.Writei | fs.c:481-511 | writei returns the device's answer for a device; for a file it yields old[..off] + src + old[off+n..], keeps the file without holes and the disk inode current, leaves every other file as it was, logs every block it changes and at most Budget blocks, refuses exactly the ranges that start past the end, wrap or pass the largest file, takes exactly the blocks that the range lacks, the indirect block included, and panics exactly when fewer are free |
| FileSystem.Fs.WritePart | fs.c:499-503 | one turn of the loop stores its bytes and changes no other mapped byte of any file |
| FileSystem.BlocksStep | fs.c:498-504 | each turn of the loop covers exactly one more block |
| FileMap.WrittenContents | fs.c:481-511 | the bytes written and the bytes kept make up the patched file |
| FileMap.UnalignedMapped | fs.c:498-500 | without holes, a write that starts inside a block starts in an allocated one |
| File.ChunkBudget | file.c:127-133 | a chunk of filewrite logs at most MAXOPBLOCKS blocks wherever it starts |
| File.PatchedTwice | file.c:133-151 | two adjacent writes are one |
| File.OpenFile.Fileread | file.c:97-113 | fileread returns the bytes from the offset on and moves it past them |
| File.OpenFile.Filewrite | file.c:118-156 | filewrite lays the bytes over the file in chunks, all that fit in the largest file, or else as many whole chunks as do, and none past the end; it panics exactly when fewer blocks are free than these bytes lack, and else takes that many; the disk gets from the old image to the new through one transaction a chunk, each of which logs every block it changes and at most MAXOPBLOCKS blocks; "short filewrite" is unreachable |
| File.OpenFile.WriteChunk | file.c:138-146 | one chunk is one transaction within budget, and panics exactly when it is not refused and lacks more blocks than are free |
| File.NextChunk | file.c:133-151 | with k whole chunks written, the next is refused only where the accepted bytes end, and otherwise belongs to them |
| File.CostJoin | file.c:133-151 | what the next chunk lacks after the first ones is exactly what it adds to what all of them lacked before, whether or not two share a block or the indirect block |
| InodeCache.Icache.Iget | fs.c:241-272 | iget returns the one entry of the inode with a reference more, not read in if nobody held it, and touches no other; it panics exactly when the inode has none and all are in use |
| InodeCache.Icache.Iput | fs.c:331-352 | iput drops one reference, and frees the inode exactly when the entry was read in, no link is left and nobody else holds the inode; entries keep counting exactly the references held |
| Links.CreatedCounted | sysfile.c:260-280 | creating a name keeps every nlink equal to the number of names in linked directories, not counting "." |
| Links.CreatedTree | sysfile.c:260-280 | it keeps the directories a tree in which each one but the root is named once, by its parent |
| Links.LinkedCounted | sysfile.c:144-152 | the entry that link adds takes over from the count it raised first |
| Links.NudgedCounted | sysfile.c:140-163 | raising the count when a link begins and lowering it on the undo path keep the counts exact with the links in progress |
| Links.UnlinkFacts | sysfile.c:207-232 | an entry that may be unlinked names an inode with a link; an empty directory has exactly one and its parent at least two |
| Links.UnlinkedCounted | sysfile.c:218-228 | unlinking keeps the counts exact |
| Links.UnlinkedTree | sysfile.c:218-228 | unlinking keeps the tree |
| Links.FreedCounted | fs.c:339-345 | an inode without links is named nowhere in the tree, and freeing it keeps the counts exact |
| Namespace.Tables.Dirlookup | fs.c:524-548 | dirlookup finds the first entry in use with the name exactly when there is one |
| Namespace.Tables.EmptyEntry | fs.c:564-570 | dirlink's search ends at the first empty entry or at the end, never at one of the dots |
| Namespace.Tables.Isdirempty | sysfile.c:168-181 | isdirempty is true exactly when no entry past the dots is in use |
| Namespace.Tables.Ialloc | fs.c:194-214 | ialloc finds the first free inode, and panics exactly when there is none |
| Namespace.Tables.Iput | fs.c:331-352 | iput frees an inode exactly on the last reference without links, and then nothing in the tree names it; counts and tree stay exact |
| Namespace.Tables.LinkStart | sysfile.c:133-142 | link refuses a directory, else raises the count and leaves everything exact with one link in progress |
| Namespace.Tables.LinkFinish | sysfile.c:144-164 | link's second half adds the entry, or undoes the count exactly when the name is taken, whatever calls ran since the first; everything stays exact if and only if it was undone or the directory has a link |
| Namespace.Tables.Create | sysfile.c:242-283 | create returns an existing file with a reference more if a file was asked for, refuses any other existing name, or enters a new inode; tree and counts stay exact if and only if the name existed or the directory has a link; it panics exactly when the name is new and no inode is free |
| Namespace.Tables.Unlink | sysfile.c:185-239 | unlink refuses exactly the dots, a missing name, and a name whose first entry stands for a directory that is not empty; else it removes that entry, keeping tree and counts exact; "unlink: nlink < 1" is unreachable |
| Namespace.Tables.SysUnlink | sysfile.c:185-239 | unlink with its iput: refused for the same reasons and no others, and then nothing changes; otherwise the entry and the counts have changed, and an inode left without links and references is freed |
| Namespace.CreateExact | sysfile.c:260-280 | a created name keeps the counts exact if and only if the directory has a link |
| Namespace.LinkExact | sysfile.c:144-152 | the same for link |
| Namespace.RemovedDirExample | sysfile.c:260-280 | a removed working directory in which no created name keeps the counts exact |
| Namespace.RemovedDirLink | sysfile.c:144-152 | the same directory with a link in progress, which entering there breaks |
| Lookup.FindIs | fs.c:524-548 | Find is the inode that dirlookup finds, 0 exactly when there is none |
| Lookup.LinkResolves | sysfile.c:144-152 | after link the new name stands for the file; no other name in any directory changes; names that were unique in each directory stay so |
| Lookup.CreateResolves | sysfile.c:260-280 | the same after create, whose new directory has its dots and nothing else |
| Lookup.UnlinkResolves | sysfile.c:218-228 | where names are unique, unlink leaves nothing under the name and changes no other |
| Lookup.MadeUnique | mkfs.c:117-151 | on the disk that mkfs makes of differently named files names are unique |
| DirBytes.EntryEncoded | fs.c:572-573 | an entry reads back as it was written, the name cut off at DIRSIZ characters and the inode number at 16 bits |
| DirBytes.EntriesPatched | fs.c:572-575 | writing the 16 bytes of an entry over a directory's contents replaces that entry, or adds one at the end, and no other |
| DirBytes.Namecmp | string.c:58-66 | namecmp is 0 exactly when the stored name is the first DIRSIZ characters of the given one |
| Directory.Dirlookup | fs.c:524-548 | over readi: finds the first entry of the file in use under the name, exactly when there is one, and changes nothing; "dirlookup read" is unreachable |
| Directory.FindEmpty | fs.c:564-570 | over readi: the first empty entry, or the end; "dirlink read" is unreachable |
| Directory.Isdirempty | sysfile.c:168-181 | over readi: true exactly when no entry past the first two is in use |
| Directory.WriteEntry | fs.c:572-575 | writei of one entry replaces or adds exactly that entry, leaves every other file as it was, logs at most two blocks besides the bitmap and the inode, and panics exactly when it adds one past the largest file or with fewer free blocks than that takes |
| Directory.Dirlink | fs.c:551-578 | refuses exactly a name that is taken, and else puts the entry in the first empty place of the file; panics exactly when none is empty and the file cannot grow, at its largest or for want of free blocks |
| NameCalls.Iput | fs.c:331-352 | the last reference to an inode without links truncates and frees it on disk, and leaves every other file and directory as it was; it logs only bitmap blocks and the inode's block |
| NameCalls.Ialloc | fs.c:194-214 | the first free inode gets the type and nothing else; panics exactly without free inodes |
| NameCalls.Close | file.c:76-78 | the iput of a closed file is one transaction of at most MAXOPBLOCKS blocks on a disk with one bitmap block |
| NameCalls.Link | sysfile.c:127-164 | on disk, link makes exactly the change of nodes that Links describes, or none but the references it drops; every file keeps its bytes; one transaction, which logs every block it changes and at most the bitmap and four more, so at most MAXOPBLOCKS on a disk with one bitmap block; it panics exactly when the new name finds no empty entry and the directory cannot grow |
| NameCalls.Unlink | sysfile.c:195-238 | likewise for unlink, with the iput that may free the inode; it refuses exactly the dots, a missing name, and a name whose first entry stands for a directory that is not empty; tree and counts stay exact; no panic is reachable |
| NameCalls.Create | sysfile.c:242-283 | likewise for create, with at most the bitmap and eight more; the panics are exactly these: a name that stands for a freed inode; or a new name and no free inode, no free block for the dots of a new directory, or no room for the entry in the directory once the dots have their block |
| NameCalls.FreedIsDotDot | sysfile.c:253-255 | a name that stands for a freed inode is the ".." of a removed directory |
| NameCalls.ChildElsewhere | sysfile.c:207-213 | an entry past the dots names another inode, which is allocated and has a link |
| NameCalls.UnlinkKeeps | sysfile.c:217-229 | tree and counts are exact after an unlink and the freeing that may follow |
| Namespace.Tables.constructor | mkfs.c:117-151 | the tree that mkfs makes, a root with files, has exact counts |
| FreeLists.InsertUnits | umalloc.c:30-43 | freeing adds exactly the block's units and leaves the list ordered, disjoint and fully coalesced |
| FreeLists.CarveUnits | umalloc.c:75-82 | allocation takes exactly the returned units out of the list and keeps its shape |
| Heap.InsertChain | umalloc.c:33-42 | the pointer updates of free make the chain in memory the list with the block inserted and joined |
| Heap.UnlinkChain | umalloc.c:76-77 | unlinking a block that fits exactly makes the chain the list without it |
| Heap.ShrinkChain | umalloc.c:78-82 | splitting a larger block makes the chain the list with that block shortened |
| Heap.LiveDisjoint | umalloc.c:24-90 | live blocks never overlap |
| Malloc.RequestServed | umalloc.c:47-70 | the block holds the request and sbrk is asked for exactly its bytes if and only if the request is at most 2^31 - 16 bytes |
| Malloc.Allocator.FindPred | umalloc.c:30-32 | the circular scan of free ends, at the block before the one freed |
| Malloc.Allocator.Splice | umalloc.c:33-43 | the joins and links of free leave the circular chain of the inserted list |
| Malloc.Allocator.Free | umalloc.c:24-44 | free returns exactly the block's units; list, accounts and circularity stay exact and every unit is free or held by one live block |
| Malloc.Allocator.Morecore | umalloc.c:46-61 | morecore adds exactly the units that sbrk handed over, and a block large enough is then free |
| Malloc.Allocator.Take | umalloc.c:75-85 | the block handed out comes whole from the free units and belongs to the caller alone |
| Malloc.Allocator.Malloc | umalloc.c:63-90 | malloc ends after at most one morecore, which it calls only when no free block fits; the block is the caller's alone, or 0 is returned and nothing has changed |
| PageTables.PagesDisjoint | vm.c:60-80 | no frame backs two user pages of any spaces |
| PageTables.WithTableOwned | vm.c:36-55 | a new page table changes no flat map and keeps the use of every frame exact |
| PageTables.MapOwned | vm.c:68-78 | mapping a page to an unused frame keeps the use of every frame exact |
| PageTables.UnmapOwned | vm.c:269-276 | clearing a page gives up its frame and no other |
| PageTables.OthersOwned | vm.c:284-298 | taking away all frames of one space leaves the other spaces exact |
| Vm.Memory.Kalloc | kalloc.c:82-95 | kalloc takes the head of the list off, or returns 0 when no frame is free |
| Vm.Memory.Kfree | kalloc.c:59-77 | kfree adds the frame to the list, and panics exactly outside the managed frames |
| Vm.DoubleFree | kalloc.c:59-77 | after kfree the free list is a list if and only if the frame was not on it |
| Vm.Memory.Freerange | kalloc.c:46-53 | freerange frees exactly the whole pages of its range |
| Vm.Memory.Walkpgdir | vm.c:36-55 | walkpgdir finds the table or makes an empty one, changes no flat map, and fails only without a free frame |
| Vm.Memory.Mappages | vm.c:60-80 | mappages maps exactly its range, up to the top of the address space, or a prefix when a table is missing; it panics only if a page of the range is mapped |
| Vm.Memory.Setupkvm | vm.c:118-136 | setupkvm builds a space with exactly the kernel's map, taking 65 frames, if and only if there are as many, and else returns 0 with every frame back |
| Vm.Memory.Allocuvm | vm.c:222-249 | allocuvm gives each page of the range a zeroed frame of its own if and only if there are frames for the pages and the missing tables, and else leaves the range unmapped with every frame back; everything else is unchanged |
| Vm.EmptiedRestores | vm.c:235-246 | a failed allocuvm has restored the mapping if and only if the range was unmapped before |
| Vm.SkipForward | vm.c:265-268 | deallocuvm's skip lands on the next table if and only if there is one |
| Vm.Memory.Deallocuvm | vm.c:256-279 | deallocuvm ends, removes exactly the mapped pages of the range with their frames, and its panics are unreachable |
| Vm.Memory.Freevm | vm.c:284-298 | freevm returns every frame of the space exactly once and leaves the other spaces alone |
| Vm.Memory.Lifetime | vm.c:118-298 | setting up a space, growing it and freeing it leaves every frame where it was; the space had all its pages if and only if there were frames enough |
| Vm.Memory.CopyStack | vm.c:341-352 | the stack page is copied to the first slot; its frame is lost if and only if it was the last one and the table is missing |
| Vm.Memory.Copyuvm | vm.c:316-359 | copyuvm makes a space with the image and the stack page in frames of its own if and only if there are frames enough, and else returns 0 with every frame back, but for one that is lost if and only if there was one too few and the stack page needs a table of its own; the parent keeps its map and bytes |
| Vm.LostFrame | vm.c:341-358 | a machine with 133 frames on which copyuvm loses one |
| Vm.ForkMemory | proc.c:293-313 | in the child every byte below sz reads as in the parent, with the same page flags, and every byte of the thread's stack page is at its address plus the distance that esp moves |
| RingQueue.Queue.PushBack | proc.c:1024-1036 | push_back adds the entry at the end, or drops it when the queue is full |
| RingQueue.Queue.PopFront | proc.c:1040-1053 | pop_front takes the first entry off, or returns none when the queue is empty |
| Semaphore.Accounting | proc.c:874-996 | in every run, from any initial value: the count is the initial value less waits plus signals; whenever the lock is free the queue is no longer than the count is below zero, and exactly as long if nobody was dropped and the initial value is not negative; grants never exceed the initial value plus signals; threads are released in the order they were queued |
| Semaphore.SleepersQueued | proc.c:955-978 | in every run the threads waiting to be woken are exactly those in the queue, each once, and those dropped |
| Semaphore.NoLostWakeup | proc.c:955-996 | in every run the thread that a signal takes off the queue is asleep by then, and sched is entered with one level of pushcli |
| Semaphore.LocksExclude | proc.c:874-996 | in every run each of the two locks has at most one holder |
| Semaphore.FewThreads | proc.c:1024-1036 | with at most MAXQ threads none is ever dropped |
| Semaphore.QueueOverflows | proc.c:1024-1036 | some run drops a thread if and only if there are more than MAXQ threads |
| Semaphore.LostForever | proc.c:955-996 | a dropped thread sleeps for ever |
| Semaphore.InitialCount | sysproc.c:119-122 | in all runs without drops a free semaphore's queue is as long as its count is below zero, if and only if the initial count is not negative |
| SemaphoreCalls.CallsCount | proc.c:873-915 | in every run, with calls counted where a thread leaves and re-enters Idle: each wait past its test has lowered the count once and no other has; the waits granted are those returned and those on their way out; each signal raises the count once |
| SemaphoreCalls.ReleasedReturns | proc.c:955-978 | whatever the others do, a thread that a signal has released returns after four steps of its own, without testing the count again |
| SemaphoreCalls.SomebodyMoves | proc.c:873-996 | in every run in which a thread is inside a call and not asleep, some such thread can take a step |
| Interrupts.Processor.Pushcli | spinlock.c:104-114 | pushcli turns interrupts off, deepens the nesting and saves the flag at depth 0 |
| Interrupts.Processor.Popcli | spinlock.c:116-125 | popcli undoes one level and panics exactly when interrupts are on or nothing was pushed |
| Interrupts.Nesting | spinlock.c:100-125 | interrupts are off exactly while the depth is positive and as before at depth 0, and a panic comes exactly with an unmatched pop |
| SleepLock.ProcTable.Wakeup1 | proc.c:768-776 | wakeup1 makes exactly the processes asleep on the channel runnable |
| SleepLock.ProcTable.Kill | proc.c:790-808 | kill marks the first process with the pid and wakes it from an ordinary sleep |
| SleepLock.AtMostOneOwner | sleeplock.c:22-42 | in every run, kills included, at most one thread has the sleep lock |
| SleepLock.SleepersHaveAnOwner | proc.c:728-785 | in every run, kills included, while the inner lock is free a sleeping thread means the lock is taken: no wakeup is lost |
| SleepLock.ReleaseWakesAll | sleeplock.c:34-42 | after releasesleep's wakeup nobody is asleep or on the way to sleep |
| SleepLockCalls.ReleaseReturns | sleeplock.c:34-42 | whatever the others do, kills included, a thread is out of releasesleep after seven steps of its own |
| SleepLockCalls.AcquireReturns | sleeplock.c:22-32 | a thread whose test finds the lock free has it from then on, and returns with it after one more step of its own |
| SleepLockCalls.WokenTests | proc.c:728-765 | a thread that is woken is back at its test after three steps of its own |
| SleepLockCalls.KillWakes | proc.c:790-808 | a kill wakes a sleeper once ptable.lock is free, and gives nobody the lock |
| SleepLockCalls.SomebodyMoves | sleeplock.c:22-42 | in every run in which a thread is inside a call and not asleep, some such thread can take a step |
| Pipe.PutBuffers | pipe.c:93 | a byte stored at nwrite goes to the end of the buffered bytes, also when the counters wrap |
| Pipe.TakeBuffers | pipe.c:116 | moving nread takes the first buffered byte off, also when the counters wrap |
| Pipe.Ring.WriteSome | pipe.c:84-94 | pipewrite copies as many bytes as there is room for, in order |
| Pipe.Ring.ReadSome | pipe.c:113-117 | piperead copies the first bytes, as many as asked for or buffered |
| PipeProtocol.DeliveredIsPrefix | pipe.c:78-121 | in every run the bytes delivered are a prefix of the bytes accepted, with at most PIPESIZE in between |
| PipeProtocol.NeverBothAsleep | pipe.c:84-121 | in every run, kills at any point included, sleeping writers mean a full buffer, and both sides never sleep at once |
| PipeProtocol.ReadersSleepOnEmpty | pipe.c:101-121 | in every run without kills sleeping readers mean an empty buffer |
| PipeProtocol.SleepersExact | pipe.c:78-121 | in any run, kills included, sleeping readers mean an empty buffer and sleeping writers a full one throughout, if and only if no writer gives up on a full buffer while a reader sleeps |
| PipeProtocol.LostWakeup | pipe.c:85-89 | a run that leaves a reader asleep beside a full buffer |
| PipeProtocol.GiveUpExact | pipe.c:85-89 | a killed writer that gives up keeps the sleeping invariant if and only if no reader sleeps |
| PipeCalls.EveryByteHasACall | pipe.c:78-99 | in every run each accepted byte belongs to one call of pipewrite |
| PipeCalls.WriterSent | pipe.c:84-93 | in every run the bytes accepted from a call under way are exactly those in front of the writer's place, in order, across any number of sleeps |
| PipeCalls.WriteReturns | pipe.c:84-98 | a call that returns without giving up has had all its bytes accepted, in order, and one that gives up only some in front |
| PipeCalls.OverStays | pipe.c:78-99 | a call that has returned gets no more bytes accepted |
| PipeCalls.ReadReturns | pipe.c:101-121 | a reader sleeps exactly while the pipe is empty with a writer and the reader has not been killed, and else returns with the first bytes, as many as asked for or buffered |
| PipeCalls.FlagsExact | pipe.c:59-75 | in every run an end is open exactly until it is closed, and a thread marked as killed exactly from its kill on |
| PipeCalls.WriteTurn | pipe.c:82-98 | pipewrite on the ring buffer between two sleeps is the protocol's step, with its result |
| PipeCalls.ReadTurn | pipe.c:105-120 | so is piperead |
| UThread.Library.constructor | uthread.c:24-41 | UT_Init makes the caller the root thread in slot 0 and leaves the other slots free |
| UThread.Library.Create | uthread.c:50-77 | UT_Create gives the first free slot a new thread with a context of its own, or returns -1 when all are in use |
| UThread.Library.Scheduler | uthread.c:96-123 | the scan ends and switches to the first slot in use after the current one |
| UThread.Library.Exit | uthread.c:154-168 | UT_exit frees the current slot, counts it off and switches away |
| UThread.Library.ShutdownTest | uthread.c:137-146 | sched_index 1 means that the root runs, and uthread_count 1 that it is alone |
| UThread.Target | uthread.c:108-118 | a switch goes to a slot in use, never to the current one, with no slot in use in between |
| UThread.ScheduledInv | uthread.c:96-123 | a switch keeps uthread_count equal to the slots in use, slot sched_index - 1 the running thread, and a context of its own in every other slot in use |
| UThread.ExitedInv | uthread.c:154-168 | so does an exit, and the thread that runs next has not exited |
| UThread.RunInv | uthread.c:50-168 | in every run the globals stay consistent and no exited thread runs |
| UThread.WaitsLess | uthread.c:92-123 | a thread in use runs within UT_COUNT - 1 switches |
| ShellTokens.Gettoken | sh.c:265-308 | gettoken returns the next token of the line with its extent, and the cursor after it |
| ShellTokens.Peek | sh.c:310-320 | peek moves over blanks only and tells whether the next token is one of the symbols |
| ShellCommands.TokensExact | sh.c:265-308 | the tokens of a line follow each other and cover exactly its characters other than blanks; a word is a longest stretch, ">>" is one token, and every other symbol stands alone |
| ShellGrammar.ParsesExactly | sh.c:327-446 | the parser accepts exactly the lines of the grammar, and its tree has exactly the line's tokens in order |
| ShellGrammar.LineSound | sh.c:344-359 | what is parsed is in the grammar and uses up exactly the tokens in front of the rest |
| ShellGrammar.LineComplete | sh.c:344-359 | every line of the grammar is parsed, to its own tree |
| ShellCommands.LineSpelled | sh.c:327-446 | the tokens of a syntax tree spell the command built of it: a relation between commands and stretches of tokens that fixes arguments, redirections, grouping and connectives without the tree |
| ShellCommands.SpelledWords | sh.c:374-446 | in a command that a line spells the words are the line's words, each as often as it occurs; arguments are in order and left sides in front of right sides; each redirection is an operator with the word after it, for input exactly if it is '<' |
| Shell.Parser.Parseredirs | sh.c:374-397 | parseredirs reads all redirections in front and panics exactly when a file name is missing |
| Shell.Parser.Parseexec | sh.c:399-446 | parseexec and parseblock return the command of the tree, which LineSpelled ties to the tokens, or panic exactly where the grammar has no unit |
| Shell.Parser.Parsepipe | sh.c:361-372 | parsepipe likewise for pipelines |
| Shell.Parser.Parseline | sh.c:344-359 | parseline ends on every input and likewise for lines |
| Shell.Nulterminate | sh.c:449-493 | nulterminate puts a NUL at the end of every word of the command and changes nothing else |
| Shell.Parsecmd | sh.c:327-342 | parsecmd panics exactly when the line is not in the grammar; the line's tokens spell the command, with what SpelledWords says of it; every argument and file name reads as its stretch of the line |
| Shell.WordReads | sh.c:449-493 | NULs at the ends of words damage no word |
| Grep.Match | grep.c:72-82 | match is true exactly when some stretch of the text, at the front after '^', is in the pattern's language |
| Grep.Matchhere | grep.c:85-96 | matchhere is true exactly when some stretch from here on is in the language of the rest of the pattern |
| Grep.Matchstar | grep.c:99-106 | matchstar is true exactly when repetitions of the character followed by the rest start here |

## Left out

- Boot, assembly, interrupts and device drivers; the disk is an array of blocks with atomic single-block writes.
- Context switching, trap frames and segments; a context is the thread it belongs to.
- Kernel-thread creation, joining and reclamation, exec, system-call argument fetching, and the scheduler's policy.
- runcmd and the other user programs, and grep's line buffering.
- Memory ordering, and anything that needs fair scheduling: the results are about safety and bounded numbers of steps.
- Path lookup: the system calls on names are given the directory and the name that it would find. Dropping a directory on the way can free it, which is not counted towards the calls' transactions.
- Packing of inodes into bytes; inodes are records, and only the block an inode lies in is used, for counting. Device numbers are left out.
- Link counts wider than 16 bits are possible in the model; a disk of FSSIZE blocks has room for fewer entries than a short counts.
- Namespace.Tables.Create: a directory is a sequence of entries without a size limit, and names are whole strings; NameCalls has the bytes and the limits.
- NameCalls.Link: link, unlink and create run here without other calls in between, which Namespace allows; reference counts held elsewhere are a parameter.
- Namespace.Tables.Iput: whether the inode's entry was read in is a parameter, and either answer is covered.
- File.OpenFile.Fileread: files only; a pipe goes to Pipe's methods and a device to its driver.
- File.OpenFile.WriteChunk: files only.
- File.OpenFile.Filewrite: files only, and nobody else writes the file between two chunks.
- Malloc.Allocator.Malloc: sbrk's answer is a parameter and hands over the bytes asked for, which needs a request that RequestServed admits; addresses count header-sized units.
- Vm.Memory.Mappages: a range that is empty or wraps, for which the source's loop would run through the whole address space, is excluded; no caller passes one.
- Vm.Memory.Deallocuvm: only up to KERNBASE, as its callers do; SkipForward shows what lies beyond.
- Vm.Memory.Kfree: the frame is not free already, for which see DoubleFree; the free list's links are a map beside the pages, and the fill pattern is not modelled.
- Semaphore.Accounting: a single semaphore that stays allocated.
- SleepLock.AtMostOneOwner: only the owner calls releasesleep; the pid that holdingsleep compares is not modelled, since threads share it.
- PipeProtocol.NeverBothAsleep: an end of the pipe is closed only when no thread is in a call on that end.
- UThread.Library.ShutdownTest: the loop of UT_shutdown, which ends only when the other threads exit, is left to the caller.
- Shell.Parser.Parseexec: the exec node, which the source fills in while redirections already point at it, is built when its arguments are complete.
