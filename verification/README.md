# xv6 in Dafny

A model of the xv6 teaching kernel and of three of its user programs, with proofs of what they are for. Code that changes things step by step is modelled by classes, arrays and loops that are proved against functions and state machines; those are then shown to have the properties below.

| part | files | main results |
|---|---|---|
| crash-safe block store | `Blocks`, `Wal`, `CrashSafety`, `GroupCommit`, `Lru`, `BufferCache`, `LogStore`, `FullLog`, `SharedCache` | crash atomicity over all runs with a crash after any block write, also during recovery; group commit of whole operations; log-space reservation; the buffer cache as a flat map of blocks, also shared by processes that wait for one another; the code of log.c over the cache takes exactly the steps of the crash machine |
| files and blocks | `Sectors`, `FreeMap`, `InodeBlocks`, `BlockCounts`, `FileSystem`, `Mkfs`, `FileRuns`, `CrashFiles`, `FileCommits` | files are byte strings, holes included; every block has one owner; exactly when the disk is too full for a call; runs from every image mkfs can build; committed calls survive a crash whole |
| directories | `Directories`, `SysFile` | link counts, distinct names and reachability over all runs |
| user-level allocator | `Umalloc` | the circular address-ordered list, conservation, both searches end |
| memory | `Frames`, `Spaces`, `VirtualMemory`, `Fork` | every frame has one owner; page tables as maps; how many frames each operation takes, and so when it fails; failure restores; fork isolates |
| processes | `SleepLock`, `ProcTree` | mutual exclusion, no lost wakeup, no deadlock; process-tree safety |
| pipe | `Pipe` | FIFO across counter wrap-around, and who may be left asleep |
| shell | `ShellGrammar`, `ShellParser` | parsing undoes printing; words end up as C strings |
| regular expressions | `Grep` | the matcher decides the language of its pattern |
| larger files | `Indirection` | slot computations are bijections |

`Machine` holds what all of them share.

Where a promise does not hold of the code as it stands, the code is kept, the exact condition is proved, and a run that breaks the promise is given:

- `log_write` panics on a full header even for a block that is listed (`PanicOnlyOnAbsorption`, `AbsorptionCanPanic`), and with the log area of mkfs on a new block (`SmallLogPanics`). A larger log area does not help: there are as many buffers as header entries, and `commit` panics exactly when something is listed and the listed blocks and those that readers hold are as many as the buffers (`Commit`). That happens with a full header (`FullLogPanics`), and with the log area of mkfs as soon as one process outside all operations is reading a block (`ReaderPanics`).
- mkfs rounds the size of the root directory up by a block too many exactly for a multiple of 32 entries (`Populate`, `RootHole`); reading the hole later allocates a block (`Readi`), which no inode on the disk then records (`CarriedOut`).
- `create` under an unlinked parent breaks the tree (`LinkedParentNeeded`, `OrphanCreate`).
- `copyuvm` loses a frame exactly if memory ends between a page and its table (`CopyUvm`, `LosesWhen`, `FrameLost`).
- A killed writer forgets a sleeping reader (`WriteSection`, `KilledWriterForgets`).
- A child is born killed exactly if `kill` found its slot free or with an embryo since it was last reaped (`Kernel.Run`, `BornKilled`, `BornKilledAgain`).

The shell has a token of its own for `>>`, but opens the file exactly as for `>`, and the model does the same.

## Model

| member | source | states |
|---|---|---|
| CrashSafety.RunInv | code/xv6-public/log.c:69-202 | After any run of begins, logged writes, ends, single-block commit writes, crashes and recovery steps, recovering the disk would give exactly the committed groups, and the volatile state fits the phase the machine is in. |
| CrashSafety.StepInv | code/xv6-public/log.c:125-233 | Every single step keeps that invariant. |
| CrashSafety.CrashAtomicity | code/xv6-public/log.c:69-122 | Wherever crashes fall, in commit or in recovery, the home blocks after recovery are the initial blocks with the committed groups applied whole and in order: all old or all new for each transaction. |
| CrashSafety.SafeIffRecovers | code/xv6-public/log.c:115-122 | A disk is safe for a target exactly if recovery turns its home blocks into that target. |
| CrashSafety.RecoverIdempotent | code/xv6-public/log.c:115-122 | Recovering a recovered disk changes nothing. |
| CrashSafety.HomeAfterHeader | code/xv6-public/log.c:192-202 | In every run a home block changes on disk only while the header on disk lists it, and then to its committed contents. |
| CrashSafety.HistoryIsPrefix | code/xv6-public/log.c:192-202 | What has been committed stays committed: the list of groups only grows at its end. |
| CrashSafety.RecoveryKeepsHistory | code/xv6-public/log.c:115-122 | Any mixture of crashes and recovery steps keeps the committed contents and the invariant. |
| CrashSafety.RecoveryCompletes | code/xv6-public/log.c:115-122 | When recovery gets through, however often it was interrupted, disk and cache hold exactly the committed contents. |
| CrashSafety.UndisturbedRecovery | code/xv6-public/log.c:115-122 | Without a crash, recovery ends after two more steps than there are listed blocks, with the disk the function Recover describes. |
| GroupCommit.NothingMovesDuringCommit | code/xv6-public/log.c:125-174 | While commit runs no operation is outstanding, and begin, log_write and end change nothing. |
| GroupCommit.WholeOperations | code/xv6-public/log.c:125-174 | Every committed group consists of whole operations: an operation in a group has ended, all its writes ever issued are in that group in order, and it is in no other group. |
| GroupCommit.QuiescentMeansDurable | code/xv6-public/log.c:146-174 | With no operation outstanding nothing is pending: cache and disk both hold the committed contents. |
| GroupCommit.InvariantSurvivesCrash | code/xv6-public/log.c:115-174 | Any property of the home blocks that every committed group keeps where it was committed holds after recovery from any crash. |
| GroupCommit.Reservation | code/xv6-public/log.c:125-163 | If every operation logs at most MAXOPBLOCKS distinct blocks, the entries in use plus all unused reservations never exceed LOGSIZE. |
| GroupCommit.NewEntryFits | code/xv6-public/log.c:213-233 | In such a run, with a log area larger than LOGSIZE, log_write of a block not yet listed does not panic and appends it below index LOGSIZE; whether the group can then be committed is the matter of Commit and FullLogPanics. |
| GroupCommit.PanicOnlyOnAbsorption | code/xv6-public/log.c:218-219 | In such a run log_write panics exactly when the header is full, and then only for a block that is already listed and needs no new entry. |
| GroupCommit.AbsorptionCanPanic | code/xv6-public/log.c:218-229 | That panic can happen: there is a run within all budgets in which log_write of an already listed block panics. |
| GroupCommit.SmallLogPanics | code/xv6-public/log.c:218-219 | With a log area of at most LOGSIZE blocks, as mkfs makes it, there is a run within all budgets in which log_write of a new block panics. |
| Blocks.PutHead | code/xv6-public/log.c:101-113 | Writing a block list into a header block and reading it back gives the list; words after it keep their old contents. |
| Lru.UnlinkKeeps | code/xv6-public/bio.c:132-133 | The two assignments that unlink a buffer leave one circular list of the others in the same order. |
| Lru.InsertFrontKeeps | code/xv6-public/bio.c:134-137 | The four assignments that link a buffer behind the head leave one circular list with it in first place. |
| BufferCache.RecycleKeeps | code/xv6-public/bio.c:81-91 | Recycling an unused clean buffer for a block nobody caches keeps blocks unique and changes no block anybody can read. |
| BufferCache.WriteBackKeeps | code/xv6-public/memide.c:52-59 | Writing a dirty buffer back keeps the cache coherent and changes no block anybody can read. |
| BufferCache.StoreChanges | code/xv6-public/log.c:204-212 | Changing the data of a locked buffer changes exactly its own block in the flat map of blocks. |
| BufferCache.Cache.constructor | code/xv6-public/bio.c:38-56 | binit leaves one list of all buffers, all empty, and the flat map of blocks is the disk. |
| BufferCache.Cache.FindCached | code/xv6-public/bio.c:68-76 | The scan from the head finds a buffer for the block if and only if one caches it. |
| BufferCache.Cache.FindVictim | code/xv6-public/bio.c:78-91 | The backward scan finds the least recently used buffer that is unreferenced and clean, or there is none. |
| BufferCache.Cache.Bget | code/xv6-public/bio.c:61-93 | A hit raises the reference count; a miss recycles the least recently used free buffer; it panics exactly if the block is not cached and every buffer is busy; no block anybody can read changes. |
| BufferCache.Cache.Iderw | code/xv6-public/memide.c:38-60 | A dirty buffer is written, an invalid one filled, everything else is a panic, and the flat map of blocks stays the same. |
| BufferCache.Cache.Bread | code/xv6-public/bio.c:95-106 | The buffer returned is locked and holds the current contents of the block; the exact condition for the panics. |
| BufferCache.Cache.Take | code/xv6-public/bio.c:95-106 | The part of bread after bget: the lock is taken and the buffer holds the current contents of its block; it panics exactly if the block has to be read and does not exist. |
| BufferCache.Cache.Bwrite | code/xv6-public/bio.c:108-116 | Exactly the buffer's block changes on disk, to the buffer's data. |
| BufferCache.Cache.Pin | code/xv6-public/log.c:231-231 | A pinned buffer cannot be recycled, and nothing else changes. |
| BufferCache.Cache.Brelse | code/xv6-public/bio.c:118-141 | The lock and one reference are given up; at zero references the buffer becomes the most recently used; the cache stays coherent exactly if the buffer's changes, if any, were written or pinned. |
| BufferCache.Cache.MoveFront | code/xv6-public/bio.c:130-138 | The list stays one circular permutation of all buffers with this one moved to the front. |
| SharedCache.Users.Run | code/xv6-public/bio.c:58-141 | Every run of processes that ask for blocks, wait for one another, store, log, write and release, with any evictions in between, behaves as one flat map of blocks with at most one owner each: every process sees the contents the flat map shows, the disk is the one of the flat map, and bget or iderw panics exactly where the flat map, counting the blocks in use, says so. |
| SharedCache.Users.Step | code/xv6-public/bio.c:58-141 | The same for one event: cache, reference counts, locks and pins go on agreeing with the flat map. |
| SharedCache.NoBuffer | code/xv6-public/bio.c:78-93 | bget panics exactly if the block is not in use and the blocks held, waited for or pinned are as many as there are buffers. |
| SharedCache.ReadsLastStore | code/xv6-public/bio.c:95-106 | In every run a block's contents are what was stored in it last, by whichever process. |
| SharedCache.SeesLastStore | code/xv6-public/bio.c:95-106 | That is what a process sees when its bread returns. |
| LogStore.BusyCount | code/xv6-public/bio.c:78-93 | bget can recycle no buffer exactly if the pinned blocks and the blocks of held buffers are as many as there are buffers. |
| LogStore.Fetch | code/xv6-public/bio.c:95-106 | bread of a block nobody holds succeeds exactly if the block exists and is pinned, or pinned and held blocks together leave a buffer; it returns the block's current contents. |
| LogStore.CopyBlock | code/xv6-public/log.c:75-80 | One round of install_trans or write_log copies a block through the cache while other processes read the blocks they hold: one block of the disk changes, and on the way home the block is no longer pinned; it panics exactly if one of the two blocks does not exist or pinned and held blocks leave no buffer for it. |
| LogStore.Log.WriteHead | code/xv6-public/log.c:101-113 | The header block on disk gets the in-memory list and nothing else changes, exactly if pinned and held blocks leave a buffer; otherwise it panics. |
| LogStore.Log.WriteLog | code/xv6-public/log.c:176-190 | Copying the listed blocks to the log takes the machine through exactly its copying steps if the listed blocks and those that others hold are together fewer than the buffers; otherwise it panics before the first write. |
| LogStore.Log.InstallTrans | code/xv6-public/log.c:68-82 | Installing takes the machine through exactly its installing steps and unpins every block, exactly if listed and held blocks are together fewer than the buffers. |
| LogStore.Log.Commit | code/xv6-public/log.c:192-202 | commit succeeds exactly if nothing is listed or the listed blocks and those that readers hold are together fewer than the buffers. Then it appends the pending group, if there is one, to the committed history and leaves cache, disk, readers and machine in agreement, each block write being one step of the crash machine; otherwise it panics before it has written anything. |
| LogStore.Log.BeginOp | code/xv6-public/log.c:124-141 | An operation is admitted exactly if its reservation fits, and the machine takes its begin step. |
| LogStore.Log.EndOp | code/xv6-public/log.c:143-174 | The last operation out commits the group, any other one only leaves; it panics exactly if the last one out finds something listed and, with what readers hold, no buffer to spare. |
| LogStore.Log.Enlist | code/xv6-public/log.c:224-230 | The list loop of log_write computes absorption: the block is listed once. |
| LogStore.Log.Update | code/xv6-public/log.c:204-233 | Reading, changing, logging and releasing a block changes that block in the cached view, leaves the disk alone, and is the machine's log_write step; it panics exactly if the header or the log area is full, or the block is not listed and pinned and held blocks leave no buffer. |
| LogStore.Log.Hold | code/xv6-public/file.c:96-113 | A block read outside every operation, as fileread does: it gets a buffer exactly if the block exists and is listed or a buffer is left, and shows what operations have logged so far, committed or not. |
| LogStore.Log.Release | code/xv6-public/bio.c:118-141 | When such a reader lets go, the block is no longer held and nothing else changes. |
| LogStore.Log.ReadHead | code/xv6-public/log.c:84-96 | The in-memory list becomes the one on disk, the machine takes its first recovery step, and there is no panic. |
| LogStore.Log.RecoverFromLog | code/xv6-public/log.c:115-122 | On any disk a crash can leave, the real code never panics and ends with the disk Recover describes and an empty log, after exactly the recovery steps of the machine. |
| FullLog.PowerOn | code/xv6-public/log.c:53-66 | binit and initlog over any disk with an empty log lead to a log that is open for operations. |
| FullLog.FullLogPanics | code/xv6-public/log.c:176-190 | With a log area larger than LOGSIZE, LOGSIZE being the number of buffers, three operations that keep to their budgets make the code of commit panic before its first write. |
| FullLog.ReaderPanics | code/xv6-public/log.c:176-190 | With a log area of LOGSIZE blocks, as mkfs makes it, three operations that keep to their budgets fill the header and the last one commits: it panics exactly if a process that is in no operation is reading a block. |
| Sectors.WordSetWord | code/xv6-public/fs.c:391-394 | Writing one 32-bit entry of an index block and reading any entry gives the written one or the old one. |
| FreeMap.MarkOne | code/xv6-public/fs.c:66-68 | Setting a bit of the free map makes exactly that block in use. |
| FreeMap.ClearOne | code/xv6-public/fs.c:88-93 | Clearing a bit of the free map makes exactly that block free. |
| InodeBlocks.AllocateKeeps | code/xv6-public/fs.c:57-78 | Marking and zeroing a free block keeps the books: bits in use are metadata, inode blocks and the block in hand. |
| InodeBlocks.EnterKeeps | code/xv6-public/fs.c:379-397 | Entering the block into an empty slot of an inode or its indirect block keeps every block with one owner and no byte of any file changes. |
| InodeBlocks.OverwriteKeeps | code/xv6-public/fs.c:499-505 | Overwriting a data block changes the bytes of that file block only. |
| InodeBlocks.EmptiedKeeps | code/xv6-public/fs.c:409-436 | An inode whose blocks are all free again leaves the books balanced. |
| FileSystem.Volume.FindFree | code/xv6-public/fs.c:62-77 | The scan finds the first free block, or every block is in use. |
| FileSystem.Volume.Balloc | code/xv6-public/fs.c:55-78 | The block handed out was free, is zeroed, is never metadata, and is the first free one; None exactly when all are in use. |
| FileSystem.Volume.Bfree | code/xv6-public/fs.c:80-96 | Frees exactly one block, and panics exactly if it is free. |
| FileSystem.Volume.Bmap | code/xv6-public/fs.c:371-401 | The block of file block bn, allocated if missing. It fails exactly if bn is out of range or the slots missing on the way, indirect block included, outnumber the free blocks before the call; always the books stay balanced, no byte of any file changes, and only the slots on the way are filled. |
| FileSystem.Volume.Readi | code/xv6-public/fs.c:453-477 | Returns exactly the requested slice of the file, cut at its end, across block boundaries and the indirect split, holes reading as zeros. The error return exactly for an offset past the end or a wrapping sum; a panic exactly if the range reaches past the largest file or its missing slots outnumber the free blocks before the call. No file changes, and the disk changes exactly if a block in the range is missing, which bmap then takes from the free ones. |
| FileSystem.ReadingMore | code/xv6-public/fs.c:471-475 | One chunk of readi delivers the bytes the file had before the call, although bmap may have filled a hole for it. |
| FileSystem.Volume.Writei | code/xv6-public/fs.c:482-512 | Splices the source into the byte sequence, extending it when needed, holes or not; every other inode keeps size, bytes and blocks; the books stay balanced, and exactly the missing slots of the range are taken from the free blocks. The exact error condition; a panic exactly if those slots, indirect block included, outnumber the free blocks before the call, and then a prefix of the source has been written and nothing else. |
| FileSystem.WriteDone | code/xv6-public/fs.c:499-511 | When all chunks are written, the contents are the splice of the old contents and the source. |
| FileSystem.Volume.Itrunc | code/xv6-public/fs.c:403-436 | Exactly the blocks of the inode become free, none of them twice, so that the free blocks grow by their number; every other inode is undisturbed. |
| BlockCounts.BlocksAdd | code/xv6-public/fs.c:55-96 | Conservation: free blocks, metadata and filled slots of all inodes add up to the size of the disk. |
| BlockCounts.GainedCount | code/xv6-public/fs.c:371-401 | An inode that gains slots, nobody else gaining any, costs exactly as many free blocks. |
| FileSystem.BmapTook | code/xv6-public/fs.c:371-401 | bmap takes from the free blocks exactly the slots that were missing. |
| FileSystem.SlotStep | code/xv6-public/fs.c:415-432 | One bfree of itrunc hits a block that is still in use and not freed before. |
| Mkfs.Builder.constructor | code/xv6-public/mkfs.c:94-111 | The blank image with the computed layout satisfies the file system invariant once its map is written. |
| Mkfs.MapWrite | code/xv6-public/mkfs.c:237-251 | Writing data blocks and writing the free map last commute, so the image can be judged as if the map were there. |
| Mkfs.NextBlock | code/xv6-public/mkfs.c:272-283 | Counting the next block up is an allocation of a zeroed free block in the final image. |
| Mkfs.MissingChunk | code/xv6-public/mkfs.c:266-285 | A file with blocks for its first bytes and no others lacks, for its next chunk, exactly the blocks by which the longer file is larger, indirect block included. |
| Mkfs.Builder.Iappend | code/xv6-public/mkfs.c:255-297 | Appends the bytes to the file, allocating exactly the blocks its size needs; other files are undisturbed. It succeeds exactly if the file stays within the largest size and those blocks are left. |
| Mkfs.Builder.WriteMap | code/xv6-public/mkfs.c:237-251 | The loop sets exactly the bits of the first blocks. |
| Mkfs.TightFile | code/xv6-public/mkfs.c:158-163 | A file whose blocks cover n bytes is without holes exactly if its size asks for no further block. |
| Mkfs.Builder.AddFile | code/xv6-public/mkfs.c:130-156 | One round of the main loop adds one complete file and one directory entry, exactly if the file is not too long and the blocks for both fit. |
| Mkfs.Builder.Populate | code/xv6-public/mkfs.c:117-165 | Succeeds exactly if every file is within the largest size and data, indirect blocks and root directory fit behind the metadata, and leaves free exactly what is then left. The finished image satisfies the kernel's invariant, holds every file complete and a root directory that names them and is blank after that; the rounded size leaves a hole at its end exactly when the number of entries is a multiple of 32. |
| Mkfs.RootHole | code/xv6-public/mkfs.c:158-163 | With thirty files the image is built and its root directory has a size of two blocks and a hole for the second. |
| FileRuns.Serve | code/xv6-public/fs.c:453-512 | One call on a volume, holes or not, is one step of a table of byte strings, with the same answer, and takes exactly the missing slots from the free blocks; it panics exactly if they outnumber the free blocks before the call. |
| FileRuns.Run | code/xv6-public/fs.c:403-512 | Any run of reads, writes and truncations behaves as that table, with every answer, and keeps the books balanced; it stops exactly at the first call for which filled slots and free blocks, reckoned from the start of the run, do not suffice. |
| FileRuns.Session | code/xv6-public/mkfs.c:117-165 | The same, starting from the image mkfs builds from any list of files, a root directory with a hole included, with filled slots and free blocks computed from the files; there is an image exactly if the files fit. |
| CrashFiles.BooksSurviveCrash | code/xv6-public/log.c:115-122 | If every committed group keeps the volume's books balanced, they are balanced on the disk after recovery from any crash, inodes and free map read from its blocks. |
| CrashFiles.FilesSurviveCrash | code/xv6-public/log.c:115-174 | If every committed group carries out its file calls where it was committed, the files after any crash and recovery are exactly what the calls of the committed groups, in order, make of the first ones. |
| FileCommits.SectorRound | code/xv6-public/fs.c:381-396 | The words of a block give back its bytes. |
| FileCommits.PutInodeAt | code/xv6-public/fs.c:221-239 | iupdate stores exactly the inode's size and addresses, and no other inode of the block changes. |
| FileCommits.CarriedOut | code/xv6-public/fs.c:482-512 | What a call leaves on disk, data and map blocks and the inode if the call ends in iupdate, holds the files as the call leaves them exactly if the call ends in iupdate or takes no block for the inode's own addresses; otherwise a block is marked that no inode on disk has. |
| FileCommits.NoHolesRecorded | code/xv6-public/fs.c:453-512 | Calls on files without holes meet that condition. |
| FileCommits.LoggedCall | code/xv6-public/fs.c:403-512 | One call on the volume of a disk: its reply, and writes to home blocks only that carry the call out exactly under that condition. |
| FileCommits.LoggedCalls | code/xv6-public/fs.c:403-512 | The calls of one operation, and writes that carry all of them out together. |
| FileCommits.CommitGroups | code/xv6-public/log.c:143-202 | Operations that commit one after the other, each call finding its blocks and being recorded: every group carries out its calls where it is committed. |
| FileCommits.CallsSurviveCrash | code/xv6-public/log.c:115-202 | After a crash at any moment of committing such groups, the files are exactly what the calls of the groups committed so far make of them. |
| CrashFiles.SameVolume | code/xv6-public/fs.h:29-42 | The volume, inodes decoded from their blocks included, depends on the home blocks only. |
| SysFile.SkipElem | code/xv6-public/fs.c:596-619 | Takes the next path element, cut to 14 bytes, and stops where the one after it begins. |
| SysFile.Tree.Namex | code/xv6-public/fs.c:625-658 | namei finds what following the elements through the directories finds; nameiparent the directory of the last element, if it is one. |
| SysFile.Tree.DirLookup | code/xv6-public/fs.c:525-549 | Finds the first entry with the name on 14 bytes, or there is none. |
| SysFile.Tree.DirLink | code/xv6-public/fs.c:552-579 | Fails exactly if the name is present; else writes the entry over the first empty slot or at the end. |
| SysFile.Tree.IsDirEmpty | code/xv6-public/sysfile.c:168-181 | True exactly if every entry after the two dots is empty. |
| SysFile.Tree.Create | code/xv6-public/sysfile.c:241-284 | Opens an existing file exactly if the entry names a file and a file is wanted, refuses exactly if something else is in the way, panics exactly without a free inode, and otherwise makes the first free inode with its entry and, for a directory, its dots and the parent's extra link. The tree invariant holds after it exactly if nothing was made or the parent was linked. |
| SysFile.Tree.Link | code/xv6-public/sysfile.c:118-165 | Adds one entry and one link, exactly if the inode is not a directory, the parent exists and the name is new; otherwise the rollback leaves everything as it was. |
| SysFile.Tree.Unlink | code/xv6-public/sysfile.c:184-239 | Removes the entry exactly if it exists, is not a dot and does not name a directory with entries; the inode is freed when its last link and reference are gone; the tree invariant holds after it. |
| SysFile.Tree.Iput | code/xv6-public/fs.c:332-353 | Frees an inode exactly if it has neither links nor other references. |
| SysFile.Tree.SysCreate | code/xv6-public/sysfile.c:241-284 | The outcome of create is decided by what nameiparent and the whole path lead to: opened, refused, no inode left, or made; after a creation the path leads to the new inode. |
| SysFile.Tree.SysLink | code/xv6-public/sysfile.c:118-165 | Succeeds exactly if the old path leads to something other than a directory and the new path leads nowhere yet in an existing directory; then the new path leads to what the old path led to, otherwise nothing changes. |
| SysFile.Tree.SysUnlink | code/xv6-public/sysfile.c:184-239 | Succeeds exactly if the path, not ending in a dot, leads to something that is not a directory with entries; then it leads nowhere, otherwise nothing changes. |
| SysFile.Tree.Step | code/xv6-public/sysfile.c:118-284 | Every event either does what its call is specified to do, decided by where its paths lead, or changes nothing; the tree invariant holds after it. |
| SysFile.Tree.Run | code/xv6-public/sysfile.c:118-284 | Each event of any run does to the tree exactly what its call is specified to do, and after any run of creations, links and unlinks from linked working directories every link count is the number of entries naming the inode other than dot in linked directories, names fit an entry and are distinct on its 14 bytes, and every linked inode is reached from the root. |
| SysFile.LinkedParentNeeded | code/xv6-public/sysfile.c:248-279 | create does not check that the parent is still linked; the invariant survives the creation of a file or a directory exactly if it is, and otherwise the new inode has a link that no path leads to. |
| SysFile.OrphanCreate | code/xv6-public/sysfile.c:241-284 | That happens: a directory that is held, removed and then created in. |
| Directories.LinkedIsReached | code/xv6-public/sysfile.c:118-284 | Every inode with a link is reached from the root by a path without dots. |
| Directories.FileAddedKeeps | code/xv6-public/sysfile.c:140-151 | One more entry and one more link for a file keep the tree invariant. |
| Directories.DirAddedKeeps | code/xv6-public/sysfile.c:270-279 | A new directory with its dots, its entry and the parent's extra link keeps the tree invariant. |
| Directories.RemovedKeeps | code/xv6-public/sysfile.c:218-229 | Removing an entry with the links that go with it keeps the tree invariant. |
| Directories.EmptyOneLink | code/xv6-public/sysfile.c:213-229 | An empty directory has exactly one link, so that unlinking it leaves none. |
| Directories.ParentEntry | code/xv6-public/sysfile.c:270-279 | A linked directory other than the root is named by an entry of the directory its own dot-dot names. |
| Umalloc.NUnits | code/xv6-public/umalloc.c:69-69 | The units computed hold the bytes asked for exactly if the 32-bit sum does not wrap. |
| Umalloc.FreeKeeps | code/xv6-public/umalloc.c:29-43 | Linking a live block in at its place, merging with either neighbour, keeps the list circular and address-ordered with no two free blocks touching, and frees exactly that block. |
| Umalloc.FreeConserves | code/xv6-public/umalloc.c:25-44 | free returns exactly the units of its block; all memory from sbrk is still accounted for. |
| Umalloc.TakeWhole | code/xv6-public/umalloc.c:76-77 | Handing out a block of exact size keeps the heap invariant. |
| Umalloc.TakeTail | code/xv6-public/umalloc.c:78-82 | Handing out the tail of a larger block keeps the heap invariant. |
| Umalloc.MallocConserves | code/xv6-public/umalloc.c:64-90 | malloc hands out units that were free, owns what it owned plus at most the grant, and leaves every live block alone. |
| Umalloc.GrantListed | code/xv6-public/umalloc.c:59-60 | After morecore some listed block is large enough, so the second search succeeds. |
| Umalloc.Heap.FindPlace | code/xv6-public/umalloc.c:30-32 | The circular search of free stops, and at the one place in address order. |
| Umalloc.Heap.Free | code/xv6-public/umalloc.c:24-44 | The block becomes free, nothing else changes hands, and no unit of a live block is written. |
| Umalloc.Heap.Search | code/xv6-public/umalloc.c:74-87 | The circular search of malloc stops with a large enough block, or none is. |
| Umalloc.Heap.Morecore | code/xv6-public/umalloc.c:46-61 | The grant joins the free list, and then some block is large enough. |
| Umalloc.Heap.Malloc | code/xv6-public/umalloc.c:63-90 | Returns a block of the computed size that was free or granted, fails only if sbrk fails and no block is large enough, takes the grant only if no block is, and writes no unit of a live block. |
| Frames.Memory.constructor | code/xv6-public/kalloc.c:46-53 | freerange puts exactly the frames above the kernel on the list. |
| Frames.Memory.Kfree | code/xv6-public/kalloc.c:59-77 | The frame goes to the front of the list that is threaded through the frames; no other frame is written. |
| Frames.Memory.Kalloc | code/xv6-public/kalloc.c:82-95 | Returns the first free frame, owned by nobody until then; fails exactly if there is none. |
| Frames.TakeKeeps | code/xv6-public/kalloc.c:89-91 | Popping the list leaves it holding exactly the free frames, each once. |
| Frames.GiveKeeps | code/xv6-public/kalloc.c:72-74 | Pushing a frame leaves the list holding exactly the free frames, each once. |
| Spaces.WithTableKeeps | code/xv6-public/vm.c:45-53 | Entering a blank page table changes no translation of any address space and keeps one owner for every frame. |
| Spaces.EnteringKeeps | code/xv6-public/vm.c:73-73 | Writing one entry changes one translation of one address space and moves one frame. |
| Spaces.DissolvedKeeps | code/xv6-public/vm.c:284-298 | A space without user pages can be taken apart without touching any other. |
| VirtualMemory.Walk | code/xv6-public/vm.c:35-55 | Finds or makes the table of a page, exactly if it is there or a frame is free; no translation changes, a new table takes one frame, and a failure changes nothing. |
| VirtualMemory.MapPages | code/xv6-public/vm.c:60-80 | The pages of the range lead to the frames in order with the permissions, nothing else changes, exactly if the free frames suffice for the missing tables; on failure the pages before stay mapped. |
| VirtualMemory.AllocUvm | code/xv6-public/vm.c:221-249 | Below KERNBASE it succeeds exactly if the free frames suffice for the pages and the tables that are missing. On success the new pages lead to distinct zeroed frames that were free; on failure every translation and every user frame is as before; all other frames keep owner and contents. |
| VirtualMemory.DeallocUvm | code/xv6-public/vm.c:255-279 | Exactly the user frames of the pages above the new size become free; skipping a directory entry misses none. |
| VirtualMemory.FreeVm | code/xv6-public/vm.c:283-298 | Every frame of the space, user pages, tables and directory, becomes free, each once; nothing else is touched. |
| VirtualMemory.Shrinks | code/xv6-public/vm.c:235-246 | After a failure in the middle, deallocuvm and kfree restore the address space. |
| VirtualMemory.OtherSpace | code/xv6-public/vm.c:221-298 | Work on one space changes no translation and no user page of another. |
| Fork.SetupKvm | code/xv6-public/vm.c:118-136 | The new space has exactly the kernel's mappings, exactly if the free frames suffice for the directory and the kernel's tables; otherwise every frame is back where it was. |
| Fork.KernelMapFits | code/xv6-public/vm.c:105-115 | The kernel's own table of regions is in order, aligned and above user space. |
| Fork.CopyUvm | code/xv6-public/vm.c:315-343 | The number of free frames before the call decides: with enough of them the child gets every page below sz with the parent's permissions and contents on frames that were free; otherwise everything is given back, except one frame exactly if memory ends between a page and the table it needs. |
| Fork.LosesWhen | code/xv6-public/vm.c:333-337 | The frame is lost exactly if, for some page that is the first of its table, the free frames are those that setupkvm and the pages before it take, and one more. |
| Fork.FrameLost | code/xv6-public/vm.c:339-342 | That happens, for every kernel map: a process of one page forks, and a frame belongs to nobody and is not free. |
| Fork.ForkIsolation | code/xv6-public/vm.c:315-343 | After it parent and child read the same bytes with the same permissions below sz on different frames, and the child has no other user page. |
| Fork.ShareNothing | code/xv6-public/vm.c:325-337 | No two user pages, of the same or of different spaces, share a frame. |
| Fork.Store | code/xv6-public/vm.c:347-384 | A store through one page of one space changes no other page of any space. |
| SleepLock.ApplyKeeps | code/xv6-public/sleeplock.c:22-42 | Every step of every process, of the timer and of the scheduler keeps the invariant that ties lock words, spinlock owners, sleepers and pending wakeups together. |
| SleepLock.MutualExclusion | code/xv6-public/sleeplock.c:22-42 | In every interleaving at most one process holds a sleep lock, the word is set exactly if one does, and the pid word says which. |
| SleepLock.NoLostWakeup | code/xv6-public/proc.c:417-474 | In every interleaving, when the word is clear and the inner spinlock is free, no process sleeps on the lock or is about to. |
| SleepLock.NoDeadlock | code/xv6-public/proc.c:417-474 | In every interleaving, while a process is inside a call and not asleep, somebody can move. |
| ProcTree.Kernel.AllocProc | code/xv6-public/proc.c:73-92 | The first free slot becomes an embryo with a new number, its killed mark as it was, or there is no free slot. |
| ProcTree.Kernel.AbandonFork | code/xv6-public/proc.c:95-98 | The failure exits free the slot, and the invariant holds although they take no lock. |
| ProcTree.Kernel.LinkChild | code/xv6-public/proc.c:200-200 | Setting the parent without the lock keeps the invariant. |
| ProcTree.Kernel.StartChild | code/xv6-public/proc.c:213-221 | The child becomes runnable and its number is returned. |
| ProcTree.Kernel.Wakeup1 | code/xv6-public/proc.c:457-465 | Exactly the sleepers on the channel become runnable. |
| ProcTree.Kernel.Exit | code/xv6-public/proc.c:227-268 | The parent is woken, all children go to init, which is woken if one of them is a zombie, and the process is a zombie; refused exactly for init. |
| ProcTree.Kernel.Wait | code/xv6-public/proc.c:272-312 | Reaps the first zombie child, never reaped before, if there is one; returns at once without children or when killed; sleeps exactly otherwise. |
| ProcTree.Kernel.Kill | code/xv6-public/proc.c:479-497 | Marks the first slot with the number, whatever its state, and wakes it; changes nothing exactly if no slot has the number. |
| ProcTree.Kernel.Step | code/xv6-public/proc.c:73-497 | For each event its effect on the table and on the histories of births, exits and reapings, and exactly when no free slot is marked as killed after it: kill must not find a free slot, a fork given up must not have a marked embryo, and fork takes the first free slot away. |
| ProcTree.BornKilled | code/xv6-public/proc.c:94-98 | A fork that fails leaves its number in a free slot, kill marks that slot, and the next child there is born killed. |
| ProcTree.BornKilledAgain | code/xv6-public/proc.c:193-198 | kill finds the embryo of a fork that then fails, and the next child there is born killed. |
| ProcTree.ExitKeeps | code/xv6-public/proc.c:250-265 | exit keeps the tree: no parent is free or a zombie, nobody sleeps in wait beside a zombie child. |
| ProcTree.ReapBooks | code/xv6-public/proc.c:287-299 | A zombie is reaped once, and exited processes are exactly the reaped ones and the zombies. |
| ProcTree.InvSafe | code/xv6-public/proc.c:180-312 | The invariant gives the claims: free slots have no parent, zombies have a living one, nobody in wait has a zombie child, and every process descends from init. |
| ProcTree.Kernel.Run | code/xv6-public/proc.c:73-312 | Each event of any run does to the table, and notes in the histories of births, exits and reapings, exactly what its code is specified to do, and all of that holds after any run of forks, exits, waits, sleeps, wakeups, kills and scheduling: nobody exits or is reaped twice, and a child is born killed exactly if, since its slot was last reaped, kill found that slot free or with an embryo. |
| Pipe.CounterGap | code/xv6-public/pipe.c:85-85 | Comparing the wrapped 32-bit counters decides how far the true counts are apart. |
| Pipe.Pipe.WriteSection | code/xv6-public/pipe.c:78-98 | The bytes that fit are appended to the history; it is done exactly if all fit, else fails exactly if the reader is gone or the writer killed, else sleeps. Sleepers are all accounted for exactly unless a killed writer has more bytes than the pipe holds while a reader sleeps. |
| Pipe.Pipe.ReadSection | code/xv6-public/pipe.c:100-121 | Returns the oldest bytes, as many as asked for or present; waits exactly on an empty pipe with a writer; no sleeper is forgotten. |
| Pipe.Pipe.Close | code/xv6-public/pipe.c:59-75 | The other end is woken, and the page is given up exactly when both ends are closed. |
| Pipe.KilledWriterForgets | code/xv6-public/pipe.c:86-88 | The exception is real: a reader sleeps beside a full pipe. |
| Pipe.Traffic.Step | code/xv6-public/pipe.c:59-121 | One stretch of code is one step of the queue, and it forgets a reader exactly if it is a killed writer's with more bytes than the pipe holds while a reader sleeps. |
| Pipe.Traffic.Run | code/xv6-public/pipe.c:78-121 | For every schedule of readers and writers, across counter wrap-around, ring and sleepers behave as a plain queue of at most 512 bytes does: the bytes read are a prefix of the bytes written and the rest is the ring's content; a reader is forgotten exactly if some event of the run is a killed writer's that forgets one, and otherwise nobody sleeps beside a pipe that could serve them. |
| ShellGrammar.RoundTrip | code/xv6-public/sh.c:344-446 | Writing a command tree with only the needed parentheses and parsing it gives the tree back, exactly if every command has at most nine words and its redirections are the shell's own. |
| ShellGrammar.LineProper | code/xv6-public/sh.c:344-446 | Whatever the parser accepts is such a tree. |
| ShellGrammar.ReadWriteRead | code/xv6-public/sh.c:327-342 | Parsing, writing and parsing again changes nothing. |
| ShellParser.GetToken | code/xv6-public/sh.c:265-308 | Returns the next token of the line, the whole extent of a word, and where the rest begins. |
| ShellParser.Peek | code/xv6-public/sh.c:310-320 | Tells whether the next token is one of the symbols, without consuming it. |
| ShellParser.ParseRedirs | code/xv6-public/sh.c:374-397 | Agrees with the grammar on redirections, failures included. |
| ShellParser.ParseExec | code/xv6-public/sh.c:415-446 | Agrees with the grammar on a simple command or block: same tree, same rest, same failures. |
| ShellParser.ParseBlock | code/xv6-public/sh.c:399-413 | Agrees with the grammar on a parenthesised line. |
| ShellParser.ParsePipe | code/xv6-public/sh.c:361-372 | Agrees with the grammar on pipelines; the recursion terminates. |
| ShellParser.ParseLine | code/xv6-public/sh.c:344-359 | Agrees with the grammar on lists and background jobs; the recursion terminates. |
| ShellParser.NulTerminate | code/xv6-public/sh.c:448-493 | Writes zeros exactly behind the words of the tree. |
| ShellParser.TreeStands | code/xv6-public/sh.c:448-493 | After that every argument and file name, read as a C string, is exactly its token. |
| ShellParser.ParseCmd | code/xv6-public/sh.c:327-342 | Following the pointers of the result through the changed buffer gives the tree the grammar assigns to the line; a panic leaves the buffer alone and happens exactly when the grammar fails. |
| ShellParser.TypedRoundTrip | code/xv6-public/sh.c:327-342 | A command typed with spaces between its tokens is parsed as that command. |
| Grep.MatchStar | code/xv6-public/grep.c:98-106 | True exactly if a prefix of the text is some repetitions of the character followed by the rest of the pattern. |
| Grep.MatchHere | code/xv6-public/grep.c:84-96 | True exactly if a prefix of the text, all of it before a final dollar sign, is in the language of the pattern. |
| Grep.Match | code/xv6-public/grep.c:72-82 | True exactly if some substring, anchored as caret and dollar demand, is in the language of the pattern, for every pattern. |
| Grep.StarBegins | code/xv6-public/grep.c:100-105 | Zero or more and then the rest: either the rest now, or one more and the same again. |
| Indirection.DoubleBijection | code/10K - Filesystem (Indirection)/end_idouble/fs.c:373-429 | For every fan-out the slot computation maps file blocks below the limit one to one onto the leaf slots, every index in range. |
| Indirection.TripleBijection | code/10K - Filesystem (Indirection)/end_itriple/fs.c:373-450 | The same for three levels, with the last slot taken as the remainder of the whole offset. |

## Left out

- Hardware, boot, interrupts, `swtch` and the trap frame: the disk is memide.c's, single-block writes are atomic, and scheduling is a step of the machine.
- The super block, `ialloc` of fs.c on disk, and the inode cache's reference counting (`iget`, `ilock`): inodes are a table beside the disk, decoded from their blocks only in `CrashFiles` and stored there only in `FileCommits`, and references are a set.
- Device inodes (`T_DEV`) in `readi`, `writei` and `create`.
- The three layers log, files and directories are proved one on top of a plain version of the one below. `FileCommits` joins files and log: the writes of a group are the blocks that differ when its calls are done, each with its last contents, and the calls of fs.c do not go through `log_write` one block at a time.
- `filewrite` and its chunk size: the number of blocks one operation logs is a hypothesis of the reservation results.
- `exec`, `loaduvm`, `inituvm`, `clearpteu`, `copyout`, console, the remaining user commands, and the shell's `runcmd`: thin plumbing or input and output.
- `itrunc` and mkfs of the indirection variants; their `bmap` appears only as the slot computation.
- The variants of the scheduler, of lazy allocation, messages and disk paging: easy scans, or the intended invariant does not hold.
- BufferCache.Cache.Bread: asks that the sleep lock of the buffer is free, so a process waiting for a busy buffer is not modelled there but in `SharedCache`, where bread is two steps.
- LogStore.Log.Commit: others hold only blocks that are neither listed nor in the log area, for which commit would wait, and they neither come nor go while it runs.
- LogStore.Log.EndOp: the same of the last operation out.
- LogStore.CopyBlock: the same of the two blocks it copies.
- LogStore.Log.Update: asks that nobody else holds the block, for which it would wait.
- SharedCache.Users.Run: callers work on buffers they hold and release them logged or written, as all callers in the kernel do; a process waits for one block at a time; all blocks are of the root device.
- FileCommits.CommitGroups: how many blocks an operation may log is left to the reservation results.
- Mkfs.Builder.Iappend: running out of blocks, which the tool does not notice, ends the model with false.
- Mkfs.Builder.Populate: takes at most 198 files, because the tool does not check the inode count.
- SysFile.Tree.Create: looking up a dot in an unlinked directory, where the code may find a freed inode, is left out.
- SysFile.Tree.Run: each system call is one atomic step; working directories are linked; link counts and directories are unbounded, where the code has 16 bits and a largest file.
- Umalloc.Heap.Malloc: leaves out requests of two gigabytes or more, for which the argument of `sbrk`, an `int`, is negative.
- VirtualMemory.AllocUvm: asks that no page between the old and the new size is mapped, as the kernel's process sizes guarantee; `mappages` panics otherwise.
- Fork.CopyUvm: asks that all pages below sz are present; the code panics otherwise.
- ProcTree.Kernel.Run: process numbers do not wrap around; one stretch of locked code is one step.
- Pipe.Traffic.Run: one stretch between taking the lock and sleeping or returning is one step.
- SleepLock.ApplyKeeps: the locked section of `yield` is one step.
- SleepLock.NoDeadlock: says that somebody can move, not that the scheduler is fair.
