# xv6, with proofs

A model in Dafny of the parts of the xv6 kernel and its user library where being right is
hard, with proofs of what they promise. Each module models one source file or one layer of it.
Code that works in place is a class with methods and loops, proved against functions on values;
protocols among processes are state machines, with properties of every run.

| files | source | subject |
|---|---|---|
| `Blocks`, `Options`, `MemDisk` | memide.c | disk blocks, the synchronous disk |
| `BufferCache`, `CacheRuns`, `Bio` | bio.c | the buffer cache on values, its runs, its linked list |
| `LogSpec`, `LogRuns`, `LogPanic`, `LogCacheRuns`, `Log`, `Sums` | log.c, bio.c | crashes and recovery, runs with crashes, the space reserved, the log above the cache, the log in place |
| `Ide`, `IdeRuns` | ide.c | the request queue against the synchronous disk |
| `Bitmap`, `FsSpec`, `FsFiles`, `FsLog`, `Fs`, `File`, `FileLog`, `FsCrash` | fs.c, file.c, log.c | blocks, inodes, files, large writes, what they log, crashes |
| `IcacheRuns`, `IcacheStale`, `Icache` | fs.c | the inode cache under interleaving |
| `Dirs`, `Path`, `LinkRuns`, `Sysfile`, `LinkStale` | fs.c, sysfile.c | directories, paths, link counts |
| `FreeList`, `Umalloc` | umalloc.c | the heap allocator |
| `Kalloc`, `Paging`, `Vm`, `Kvm`, `Copyuvm` | kalloc.c, vm.c | physical pages, page tables, address spaces |
| `ProcRuns`, `Proc`, `SleepRuns` | proc.c, sleep1.p | fork, exit, wait; sleep and wakeup |
| `PipeRuns`, `Pipe` | pipe.c | pipes |
| `ShGrammar`, `ShSyntax`, `ShProofs`, `Sh` | sh.c | the shell's parser as functions, the grammar of its command lines, the two compared, the parser in place |
| `Grep` | grep.c | the pattern matcher |

Conventions. A panic of the source is a result (`panic`, a `Panic` or `NoBuffers` case, or the
value 0 where the source would return an address); where a contract says `!panic`, the panic
cannot happen. A run is a sequence of events each of which is enabled when it happens; the
theorems about runs quantify over all of them. What the hardware, sbrk, ialloc's scan of the disk
or another layer answers is a parameter. Counters of the source that wrap at 32 bits (the pipe's
positions, offsets of reads and writes, sizes asked of malloc) wrap in the model; process ids and
link counts do not.

Properties that do not hold, each with a counterexample and the exact condition:

* The panic "too big a transaction" is out of reach of operations that add at most m blocks each
  if and only if MAXOPBLOCKS + 2m is below LOGSIZE and below the log region's size less its header
  (`LogPanic.PanicIff`). With m equal to MAXOPBLOCKS no region is large enough: the test comes
  before absorption, so rewriting a listed block in a full log panics (`LogPanic.RewritePanics`).
  A write of a block not yet listed panics in some run if and only if the region has at most
  LOGSIZE blocks, as mkfs makes it (`LogPanic.NewBlockPanicIff`).
* filewrite keeps each of its operations within MAXOPBLOCKS log entries if and only if one writei
  of all the bytes would (`File.OpenFile.Write`, `FsLog.WriteCost`). For n bytes at off inside the
  file that is off % BSIZE + n <= MAXOPBLOCKS * BSIZE (`FsLog.InsideIff`). For a write that grows
  the file, with one bitmap block as mkfs makes it, there is one block less for the inode, one
  less if it allocates and another if it then reaches past the direct blocks (`FsLog.GrowIff`). A
  whole chunk never keeps within it (`FsLog.TooMany`), and three processes overwriting a chunk each
  stop the kernel in a log region of any size (`FileLog.ChunksPanic`).
* A step keeps the invariant of the inode cache if and only if it is proper: a lookup finds an
  inode that is allocated and that nobody is freeing or allocating, changes are written back before
  unlocking, and a link count covers the entries (`IcacheRuns.StepIff`). A lookup through ".." of
  a removed directory is not: the parent may be freed, and then ilock finds no type
  (`LinkStale.ParentIsFree`, `IcacheStale.StaleLookupPanics`, `IcacheStale.StaleLookupShares`).
* malloc asks for enough units, and sbrk for enough bytes, if and only if the request is at most
  0x7FFFFFF0 bytes (`Umalloc.RequestIff`).
* A write that fails has still written the whole chunks below the largest file size
  (`File.OpenFile.Write`).
* Link counts are kept if and only if nothing is created or linked in a directory that has been
  removed (`LinkRuns.StepIff`, `LinkRuns.CreateInRemoved`).
* deallocuvm unmaps exactly its range if and only if its jump over a missing table skips no mapped
  page; without holes it never does (`Vm.ExactIff`, `Vm.NoneSkipped`, `Vm.HoleSkips`).
* setupkvm fails if and only if fewer than 65 pages are free, and then all of them are lost
  (`Kvm.Setupkvm`). A copyuvm that gets past it and runs out of memory loses one page if and only
  if the number of pages then free is 1 modulo 1025, and otherwise none (`Copyuvm.Copyuvm`,
  `Copyuvm.CopyOnOneLeft`).
* A sleeping reader means an empty pipe if and only if no killed writer with more than a pipeful
  left has returned without waking it (`PipeRuns.StepSleepIff`, `PipeRuns.KillStrands`).

Where comments and code differ the model follows the code: the shell's `>>` builds the same node
as `>` (sh.c:389-394), and a chunk of filewrite is sized from LOGSIZE and not from MAXOPBLOCKS
(file.c:126-132), so it does not avoid what its comment says it avoids.

## Model

| member | source | states |
|---|---|---|
| MemDisk.Iderw | memide.c:37-59 | succeeds exactly on a busy buffer that is not already in step with a disk block in range; afterwards buffer and block hold the same bytes, the written ones if the buffer was dirty |
| BufferCache.Find | bio.c:71-81 | the first buffer of the list for an address |
| BufferCache.Victim | bio.c:86-94 | the last idle clean buffer of the list |
| BufferCache.BreadSpec | bio.c:62-109 | the caller gets the latest contents of the block exclusively; what is seen, pinned and held elsewhere is unchanged; it sleeps only on a held block and panics only when no buffer is idle and clean |
| BufferCache.PinSpec | log.c:226-229 | a logged change is seen at once, pins the buffer, and leaves the disk alone |
| BufferCache.BwriteSpec | bio.c:111-119 | the data are seen and on disk, and the buffer is no longer pinned |
| BufferCache.BrelseSpec | bio.c:121-142 | nothing seen or pinned changes; only the hold ends |
| CacheRuns.InitInv | bio.c:39-57 | the cache set up by binit shows the disk, with nothing pinned or held |
| CacheRuns.RunShowsWrites | bio.c:62-142 | in every run at most one buffer exists per real block and the cache shows exactly the changes made so far, in order |
| CacheRuns.ReadsLatest | bio.c:98-109 | bread after any run from boot returns the last contents written at the address |
| CacheRuns.RunRecency | bio.c:121-142 | in every run the list holds each buffer once, in most-recently-released order |
| CacheRuns.RecyclesLeastRecentlyReleased | bio.c:83-95 | a miss recycles the idle clean buffer that was released longest ago |
| CacheRuns.NoBuffersMeansFull | bio.c:86-95 | the panic "no buffers" means that pinned and held blocks fill the cache |
| Bio.Binit | bio.c:39-57 | builds one circular doubly linked list of fresh buffers |
| Bio.Unlink | bio.c:131-132 | the list without the buffer, both ways round |
| Bio.PushFront | bio.c:133-136 | the list with the buffer in front, both ways round |
| Bio.MoveToFront | bio.c:131-136 | the buffer moves to the front, the rest keeps its order |
| Bio.Lookup | bio.c:71-81 | the forward scan finds the buffer that Find names |
| Bio.Scan | bio.c:86-94 | the backward scan finds the buffer that Victim names |
| Bio.Bcache.constructor | bio.c:39-57 | a cache of NBUF buffers on a linked list, over a disk |
| Bio.Bcache.Bget | bio.c:62-96 | on the linked list, the same buffer, outcome and new state as bget on values |
| Bio.Bcache.Sync | memide.c:37-59 | one buffer goes through the synchronous disk, the others stay |
| Bio.Bcache.Bread | bio.c:98-109 | on the linked list, the same as bread on values |
| Bio.Bcache.Bwrite | bio.c:111-119 | on the linked list, the same as bwrite on values |
| Bio.Bcache.Brelse | bio.c:121-142 | on the linked list, the same as brelse on values; panics exactly on a buffer that is not held |
| LogSpec.HeaderRoundTrip | log.c:83-112 | read_head undoes write_head, whatever the header block held |
| LogSpec.InstallIdempotent | log.c:67-81 | installing again after any prefix of an installation gives the same file system |
| LogSpec.BootCrash | log.c:114-121 | after a crash at any single-block write of recovery, recovery still gives the same file system; completed, it leaves it in place with an empty log |
| LogSpec.RebootsCrash | log.c:114-121 | the same for any sequence of crashed recoveries |
| LogSpec.InstallShows | log.c:67-81 | installing a committed log puts on disk what the cache showed |
| LogSpec.PutHeadCommits | log.c:97-112 | the write of the header is what makes the new file system the recovered one |
| LogSpec.CommitCrash | log.c:173-199 | after any number of commit's writes, recovery gives the old file system up to the last log block and the new one from the header on, never a mixture |
| LogRuns.Progress | log.c:67-199 | recovery can always read the log and commit and recovery can always go on |
| LogRuns.StepRefines | log.c:123-230 | one step of any process, of the disk or a crash changes the durable file system at the commit point only, to what users saw, with no call outstanding |
| LogRuns.RunInv | log.c:123-230 | logged blocks are distinct home blocks and fit the region, the disk is as many writes into commit or recovery as have been made, and outside the listed blocks disk and memory agree, in every run with crashes anywhere |
| LogRuns.AtBoot | log.c:114-121 | a machine switched on over any disk whose log can be read is in such a state |
| LogRuns.CrashAtomicity | log.c:67-199 | at every moment of every run, with crashes anywhere, also inside recovery, recovery gives the file system after a whole number of committed groups |
| LogRuns.CrashKeeps | log.c:67-199 | whatever the calls keep true of the file system whenever none is outstanding holds of what recovery yields, at every moment of every run |
| LogRuns.UsersSee | log.c:201-230 | users see their writes in order, and after a crash the durable file system |
| LogPanic.RunReserved | log.c:123-171 | listed blocks plus the unused budgets of outstanding calls never exceed MAXOPBLOCKS + 2m, which is LOGSIZE for m = MAXOPBLOCKS, in every run of operations that add at most m blocks |
| LogPanic.PanicIff | log.c:123-230 | for operations that add at most m blocks, the panic of log_write is unreachable if and only if MAXOPBLOCKS + 2m is below LOGSIZE and below the region's size less its header |
| LogPanic.RewritePanics | log.c:215-229 | after three operations of MAXOPBLOCKS blocks, logging a listed block again panics, in a region of any larger size |
| LogPanic.NewBlockPanicIff | log.c:215-227 | a write of a block not yet listed is safe within budgets if and only if the region exceeds LOGSIZE |
| LogPanic.NextPanics | log.c:215-216 | three operations that go on to log m blocks each, more than fit together, reach the panic at the first that does not fit |
| LogCacheRuns.CommitWrite | log.c:67-112 | the next write of commit, its address and data read through the cache, is the protocol's |
| LogCacheRuns.RunInv | log.c:67-230 | over every interleaving of log steps with buffers got, loaded and released by anybody, exactly the listed blocks not yet installed are pinned and the cache shows the current file system |
| LogCacheRuns.CacheCarriesLog | log.c:67-230 | from power-on over a readable disk, with crashes anywhere: the disk below the cache recovers to the last committed group, and readers see the current file system |
| Log.Log.constructor | log.c:52-65 | initlog recovers: the cache shows what recovery of the given disk means, with an empty log |
| Log.Log.BeginOp | log.c:123-140 | admits exactly when no commit is under way and every outstanding call could still use its budget |
| Log.Log.LogWrite | log.c:201-230 | the data are seen, the block is listed once and pinned, nothing reaches the disk; panics exactly when full or outside a call |
| Log.Log.EndOp | log.c:142-171 | the last call commits: the disk recovers to what was seen, and every intermediate disk recovers to the old or the new file system, switching at the header |
| Log.Log.WriteLog | log.c:173-187 | the log region gets the cached contents of the listed blocks, write by write, with no panic |
| Log.Log.InstallTrans | log.c:67-81 | the home blocks get the logged contents, write by write, and are unpinned |
| Log.Log.WriteHead | log.c:97-112 | the header block lists the logged blocks |
| Log.Log.ReadHead | log.c:83-95 | the in-memory header becomes the one on disk |
| Log.Log.Commit | log.c:189-199 | the sequence of disks is exactly that of the crash theorem, and the log is empty afterwards |
| Log.Log.RecoverFromLog | log.c:114-121 | the disk becomes the recovered file system with an empty log, through disks that all recover to it |
| Log.CommitsCrash | log.c:173-199 | along the disks that commit really goes through, recovery switches from old to new once, at the header |
| Log.Absorbed | log.c:220-227 | absorption keeps the list free of duplicates and adds exactly the block |
| Log.ReadOk | bio.c:86-95 | with fewer than NBUF blocks pinned and held bread does not run out of buffers |
| Ide.AcceptsIff | ide.c:71-145 | with the disks that are addressed there, a request passes all the driver's tests exactly when the synchronous disk serves it |
| Ide.IdeDriver.Append | ide.c:133-155 | the request goes to the end of the linked queue, and starts the disk exactly if it is the head; panics exactly on wrong flags, a missing second disk, or a head out of range |
| Ide.IdeDriver.Interrupt | ide.c:98-127 | the head leaves the queue with its data and flags set, and the next request is started; panics exactly when that one is out of range |
| IdeRuns.HeadServed | ide.c:71-127 | what the controller does to the head is what the synchronous disk does |
| IdeRuns.RunInv | ide.c:71-163 | in every run the queue holds the last calls in order, its head is the one active request, and every other waiting call has its buffer back as its own service left it |
| IdeRuns.RefinesSynchronous | ide.c:71-163 | the disk is the result of serving the calls one after the other, in the order made, and the k-th call returns what the k-th service made of the buffer it passed |
| IdeRuns.Progress | ide.c:98-163 | a waiting call can return at once, or the step the hardware owes is possible and brings it one step closer |
| IdeRuns.NoStall | ide.c:98-163 | in every state of every run a waiting call returns after at most two steps of device and interrupt handler for each queued request |
| Bitmap.BlockBitSet | fs.c:60-65 | setting or clearing one bit of a bitmap block changes that bit only |
| FsSpec.MarkBlock | fs.c:62-66 | marking a free block keeps ownership and bitmap in step, and nobody owned it |
| FsSpec.UnmarkBlock | fs.c:85-91 | a block just given up is marked, and unmarking it keeps ownership and bitmap in step |
| FsFiles.WriteFileBlock | fs.c:477-483 | writing a block of one file changes no other file block, address or bit |
| FsFiles.SpliceTwice | file.c:134-152 | two adjacent writes are one |
| FsFiles.ChunkWritten | fs.c:477-483 | mapping a block and overwriting part of it is a splice of the file's bytes |
| Fs.FileSystem.constructor | fs.c:53-75 | an image of free inodes meets the invariants: one owner per block, bitmap exact, no holes |
| Fs.FileSystem.Balloc | fs.c:52-75 | the first free block, nonzero, zeroed and nobody's, is marked, and it and its bitmap block are logged; "out of blocks" only when all are in use |
| Fs.FileSystem.Bfree | fs.c:77-93 | exactly the block given up becomes free; "freeing free block" cannot happen |
| Fs.FileSystem.Bmap | fs.c:354-382 | a mapped block is found without a change; a missing one gets a fresh block and every other file block stays; what is logged is exactly the new blocks, their bits and the indirect block; it fails only beyond the largest file or on a full disk |
| Fs.FileSystem.Readi | fs.c:432-456 | the bytes of the file in the range, with no allocation and no change; -1 exactly on an offset beyond the end or a 32-bit overflow; the device's answer for a device |
| Fs.FileSystem.WriteChunk | fs.c:477-483 | one iteration of writei splices its bytes into the file and touches no other |
| Fs.FileSystem.WriteAll | fs.c:477-483 | the whole loop is one splice; addresses change only if the file grows |
| Fs.FileSystem.Writei | fs.c:458-490 | a splice of the file's bytes that leaves all other files, the ownership of blocks and the inodes on disk in order; -1 exactly on a bad range, and then nothing changed; logs exactly the file blocks touched, the bits of blocks allocated, and the indirect block and the inode if they change, and their number |
| Fs.FileSystem.Itrunc | fs.c:384-417 | the file is empty, exactly its blocks are free, all other files are unchanged, and no panic; logs exactly their bits and the inode |
| Fs.BlankImage | fs.c:53-93 | blank inodes and a bitmap of the metadata satisfy all invariants |
| FsLog.LoopLogMore | fs.c:477-482 | what one more iteration of writei adds to the blocks logged |
| FsLog.CountLog | fs.c:458-490 | the file blocks, bitmap blocks, indirect block and inode block that writei logs do not overlap, so their number is known before the call |
| FsLog.InsideIff | fs.c:477-482 | a write inside the file logs at most MAXOPBLOCKS blocks if and only if off % BSIZE + n is at most MAXOPBLOCKS blocks |
| FsLog.GrowIff | fs.c:477-488 | the same for a write that grows the file, with the blocks its growth logs, in a file system with one bitmap block |
| FsLog.TooMany | file.c:132-142 | a write of thirteen blocks' worth of bytes or more logs more than MAXOPBLOCKS, wherever it goes |
| File.InBudgetIff | file.c:132-152 | all operations of a filewrite keep within MAXOPBLOCKS if and only if a single write of its bytes would |
| FileLog.ChunkLogged | fs.c:477-482 | the blocks of a chunk are among those its writei logs |
| FileLog.ChunksPanic | file.c:126-145 | three processes that begin_op admits, each overwriting a chunk of its own file, log their blocks up to the panic of log_write, whatever the size of the region |
| FsCrash.CrashKeepsBase | fs.c:53-93 | from power-on over a sound file system, with calls that leave it sound whenever none is outstanding and crashes anywhere, recovery always yields one owner per block and an exact bitmap |
| File.OpenFile.Write | file.c:115-155 | returns n if and only if the file takes all n bytes, and then equals one write of n bytes; otherwise exactly the whole chunks below the largest file size are written; "short filewrite" cannot happen; its operations keep within MAXOPBLOCKS log entries exactly when one write of the bytes would |
| IcacheRuns.FreeInv | fs.c:318-330 | under the invariant, when iput frees the inode on disk no other handle to it exists |
| IcacheRuns.LoadInv | fs.c:279-293 | under the invariant, what ilock reads has a type |
| IcacheRuns.LookupIff | fs.c:218-249 | iget through an entry, covered by a link count or not, keeps the invariant if and only if the inode is allocated and nobody is freeing or allocating it |
| IcacheRuns.CountedSafe | fs.c:504-527 | so does every lookup through an entry that a link count covers |
| IcacheRuns.HeldSafe | fs.c:504-527 | and every lookup of an inode that somebody has a handle to and is not freeing |
| IcacheRuns.StepIff | fs.c:174-334 | every step of iget, idup, ilock, iunlock, iupdate, iput, ialloc and of the directories keeps the invariant if and only if it is proper |
| IcacheRuns.RunInv | fs.c:174-334 | the invariant of the cache over every interleaving of proper steps |
| IcacheRuns.FirstImproper | fs.c:174-334 | the first improper step of any run breaks it |
| IcacheRuns.RunSlots | fs.c:218-260 | in proper runs entries are unique per inode and a reference count is the number of handles |
| IcacheRuns.RunLocks | fs.c:262-306 | in proper runs locks exclude, and whoever holds one sees an allocated inode of the generation the handle was made for |
| IcacheRuns.RunCoherent | fs.c:197-213 | in proper runs a valid entry nobody is working on equals the inode on disk |
| IcacheRuns.RunFrees | fs.c:315-334 | in proper runs iput frees only when no other handle exists; a handle made meanwhile, through ialloc's reuse of the number, is for a later allocation |
| IcacheRuns.RunPut | fs.c:318-323 | in proper runs iput never finds the lock of the last reference taken |
| IcacheStale.StaleLookupPanics | fs.c:279-293 | a run: a directory is removed with a process in it, then its parent, which is freed; the process looks up ".." and ilock finds no type |
| IcacheStale.StaleLookupShares | fs.c:315-334 | the same lookup inside iput's window gives a second handle to the inode being freed |
| Icache.Icache.Iget | fs.c:218-249 | the entry in use for the inode, else the first free one, not valid and not locked, with one more reference; fails exactly when there is neither |
| Icache.Icache.Lookup | fs.c:504-527 | an inode found through any entry gives a new handle; the invariant survives exactly the safe lookups |
| Icache.Icache.Ialloc | fs.c:174-194 | the least free inode number gets the type on disk, and no other inode changes; fails exactly when there is none |
| Icache.Icache.Idup | fs.c:253-260 | one more handle on the same inode and generation |
| Icache.Icache.Lock | fs.c:264-277 | takes the lock of an entry in use, with no panic |
| Icache.Icache.Load | fs.c:279-293 | panics exactly when the inode had to be read and is free on disk; under the invariant it does not, and the entry is valid, allocated and of the handle's generation |
| Icache.Icache.Unlock | fs.c:296-306 | panics exactly on an entry not locked or not referenced, which the invariant excludes; the invariant survives exactly when the entry has been written back |
| Icache.Icache.Put | fs.c:315-324 | starts freeing exactly on the last reference to an unlinked inode; "iput busy" cannot happen |
| Icache.Icache.Free | fs.c:325-327 | the inode is free on disk and the invariant holds |
| Icache.Icache.Finish | fs.c:328-334 | the entry is no longer valid, locked or referenced by this handle |
| Dirs.LinkIsInsert | fs.c:529-557 | dirlink keeps names unique and adds one binding to the directory as a map |
| Dirs.ClearIsRemove | sysfile.c:217-219 | clearing an entry removes one binding |
| Path.Skipelem | fs.c:575-597 | the whole first element of the path if it has at most 14 characters, else its first 14, and the path behind it without leading slashes; none exactly when only slashes are left |
| Path.ElemsSpelled | fs.c:559-597 | however a path is spelled with slashes, its elements are read back in order, one of at most 14 characters as itself, a longer one as its first 14 |
| LinkRuns.OneLink | sysfile.c:212-230 | an empty directory has exactly one link, so unlink brings it to none |
| LinkRuns.TwoLinks | sysfile.c:220-223 | a directory with a subdirectory has two links, so unlink of the subdirectory leaves it linked |
| LinkRuns.UnlinkStartInv | sysfile.c:196-228 | removing an entry keeps the tree of directories and all link counts, with the call in the middle counted |
| LinkRuns.CreateInv | sysfile.c:240-283 | create keeps the tree and all link counts in a linked directory |
| LinkRuns.CreateBreaks | sysfile.c:240-283 | in a removed directory it breaks one: the new file's, or the grandparent's |
| LinkRuns.LinkDoneBreaks | sysfile.c:143-150 | a link into a removed directory leaves the count one too high |
| LinkRuns.StepIff | sysfile.c:116-283 | every step of link, unlink, create and iput keeps link counts if and only if it adds no entry to a removed directory |
| LinkRuns.RunInv | sysfile.c:116-283 | the tree and the counts hold in every interleaving of such steps |
| LinkRuns.LinkCounts | sysfile.c:116-283 | between calls a link count is the number of entries naming the inode, other than "." and those in removed directories, and names in a directory are distinct |
| LinkRuns.CreateInRemoved | sysfile.c:240-283 | a run that removes a directory and creates a file in it breaks the counts |
| Sysfile.Files.Dirlookup | fs.c:503-527 | the first entry in use for the name, or -1 exactly when there is none; panics exactly on an inode that is no directory |
| Sysfile.Files.Dirlink | fs.c:529-557 | -1 exactly when the name is taken; panics exactly on an inode that is no directory and when a new entry would be past the largest file; otherwise the first empty entry, or a new one, is filled |
| Sysfile.Files.Isdirempty | sysfile.c:166-180 | no entry after the first two is in use |
| Sysfile.Files.Namex | fs.c:600-636 | the inode the path's elements lead to, or the directory one element short and the last name; panics exactly when an inode on the way has no type |
| Sysfile.Files.SysLink | sysfile.c:116-164 | one more binding and one more link and nothing else, or no change at all; panics exactly when the directory cannot grow; the counts hold afterwards if and only if the directory is linked |
| Sysfile.Files.SysUnlink | sysfile.c:182-238 | one binding and one link fewer, and one link of the directory if a directory was removed, or no change; refuses exactly dots, absent names and directories in use; all counts hold and "nlink < 1" cannot happen |
| Sysfile.Files.Create | sysfile.c:240-283 | under a new name an inode of the type asked for with one link, with the two dots exactly for a directory, and nothing else changed; on a taken name the inode it leads to exactly if that and the type asked for are plain files; panics exactly when there is no free inode or the directory cannot grow; counts hold if and only if the directory is linked |
| LinkStale.ParentIsFree | sysfile.c:182-238 | after mkdir a, mkdir a/b, unlink a/b and unlink a, each step keeping all link counts, ".." in b leads namex to a free inode, and every path through it to the panic |
| Sysfile.WalkIff | fs.c:600-636 | a path leads to an inode if and only if each element is found in the directory before it |
| Sysfile.ParentIs | fs.c:611-621 | nameiparent gives the directory that the path without its last element leads to |
| FreeList.InsertOk | umalloc.c:24-44 | freeing keeps the list ordered, disjoint and fully coalesced |
| FreeList.InsertCovers | umalloc.c:33-42 | freeing adds exactly the units of the block |
| FreeList.InsertApart | umalloc.c:33-42 | blocks apart from the freed one stay apart from all free ones |
| FreeList.TakeOk | umalloc.c:75-83 | allocating keeps the list ordered, disjoint and coalesced |
| FreeList.TakeCovers | umalloc.c:75-83 | allocating removes exactly the units handed out, which were free |
| FreeList.TakeApart | umalloc.c:75-83 | the block handed out overlaps no free and no other block |
| Umalloc.LinkCircle | umalloc.c:33-42 | free's pointer surgery turns the circle into the circle of the list with the block inserted |
| Umalloc.UnlinkCircle | umalloc.c:76-77 | unlinking an exact fit leaves the circle of the rest |
| Umalloc.CutCircle | umalloc.c:78-82 | cutting the tail off a block leaves the circle of the shorter list |
| Umalloc.RequestIff | umalloc.c:54-69 | the unit and byte counts are large enough if and only if the request is at most 0x7FFFFFF0, and then no fewer units would do |
| Umalloc.Heap.constructor | umalloc.c:21-22 | the heap before the first call |
| Umalloc.Heap.Search | umalloc.c:30-32 | the loop ends on every circle, at the block's place |
| Umalloc.Heap.Free | umalloc.c:24-44 | the heap stays valid, the block is no longer allocated, exactly its units become free |
| Umalloc.Heap.Morecore | umalloc.c:46-61 | the units sbrk gives join the free list at its end; nothing changes when it fails |
| Umalloc.Heap.Carve | umalloc.c:76-84 | the whole block or its tail is handed out and the heap stays valid |
| Umalloc.Heap.Malloc | umalloc.c:63-90 | the loop ends; it calls morecore at most once, exactly when nothing fits; returns 0 exactly when sbrk then fails; otherwise a block of the units asked for that overlaps no other, without morecore the first large enough one after freep; free and allocated units are those sbrk gave |
| Kalloc.Memory.Alloc | kalloc.c:82-98 | the first page of the chain through the free pages, or 0 exactly when there is none |
| Kalloc.Memory.Release | kalloc.c:60-79 | the page joins the chain; panics exactly out of range; no other page changes |
| Kalloc.Memory.Freerange | kalloc.c:46-53 | exactly the whole pages between two addresses become free |
| Paging.SetEntry | vm.c:85 | writing one table entry changes the flat map at one page |
| Paging.ClearEntry | vm.c:271 | clearing one table entry unmaps one page |
| Paging.NewTable | vm.c:55-62 | a zeroed page hung into the directory changes the flat map nowhere |
| Vm.Walkpgdir | vm.c:42-65 | the table of a page, made if asked and possible; the flat map is unchanged |
| Vm.Mappages | vm.c:67-92 | the flat map gains exactly the pages of the range with their flags; -1 exactly when a table cannot be made, and then a prefix is mapped; panics only on a mapped page |
| Vm.Unmap | vm.c:264-272 | the page is unmapped and free, nothing else changes |
| Vm.Deallocuvm | vm.c:247-275 | unmaps and frees the pages from PGROUNDUP(newsz) up to oldsz other than those the jump skips; no page is lost or freed twice |
| Vm.ExactIff | vm.c:260-264 | the range is unmapped exactly if and only if no mapped page in it is skipped |
| Vm.NoneSkipped | vm.c:260-264 | nothing is skipped on memory without holes, nor from an address that starts a table |
| Vm.HoleSkips | vm.c:260-264 | in a given memory, a space with a hole in which a mapped page is left behind |
| Vm.Freevm | vm.c:277-294 | all user pages of the space, all tables, the kernel's included, and the directory are free again |
| Kvm.RowEntry | vm.c:115-127 | the rows of kmap do not overlap, and give each page of the kernel's half its entry |
| Kvm.MapRow | vm.c:141-144 | one row of kmap is mapped with no remap, or the pages run out before all the kernel's tables are made |
| Kvm.Setupkvm | vm.c:129-146 | a directory with exactly the kernel's half mapped, on 65 fresh pages; 0 exactly when fewer are free, and then none is left |
| Copyuvm.CopyPage | vm.c:321-332 | one more page copied on a fresh page; on failure what was taken and what is lost |
| Copyuvm.Copyuvm | vm.c:309-339 | the kernel's half, and equal bytes and flags on fresh pages disjoint from the parent's, which is intact; fails exactly when pages are short; what is lost then, exactly |
| Copyuvm.CopyOnOneLeft | vm.c:326-338 | with one page more than the kernel's half takes, a copy of one page fails and loses a page |
| ProcRuns.ForkMakes | proc.c:135-172 | a fork that gets a slot and pages makes one runnable process with a new pid and the caller as its parent, and changes nothing else |
| ProcRuns.ForkFails | proc.c:145-150 | a fork without memory leaves its slot free |
| ProcRuns.ExitShape | proc.c:250-314 | the process is a zombie, its children belong to the first process, and exactly the sleepers on its parent are woken, and on the first process if a child is a zombie |
| ProcRuns.ExitInv | proc.c:250-314 | exit keeps the table's invariant: the parent is woken, children go to the first process, which is woken for zombies |
| ProcRuns.StepInv | proc.c:135-393 | every step of fork, exit, wait, kill, exec, scheduling, sleep and wakeup keeps it |
| ProcRuns.RunInv | proc.c:135-393 | it holds in every run of a table of any size |
| ProcRuns.NoLostWakeup | proc.c:355-393 | whoever sleeps in wait has no zombie child |
| ProcRuns.LiveParents | proc.c:250-314 | the first process never exits and every other one has a live parent |
| ProcRuns.WaitAnswers | proc.c:355-393 | wait, called or woken: a pid exactly if there is a zombie child, -1 exactly if there is none and the caller has no child or was killed, asleep on itself exactly if it has children, none a zombie, and was not killed |
| ProcRuns.WaitReaps | proc.c:361-382 | wait with a zombie child returns the pid of one and frees its slot only |
| ProcRuns.ReapedOnce | proc.c:355-393 | each process is reaped at most once, after it exited, and the exited ones not yet reaped are exactly the zombies of the table |
| ProcTable.Ptable.constructor | proc.c:84-109 | the table after the first process is set up |
| ProcTable.Ptable.Wakeup1 | proc.c:588-599 | exactly the sleepers on the channel become runnable |
| ProcTable.Ptable.Allocproc | proc.c:43-58 | the first free slot with a new pid, or -1 exactly when there is none; no other process changes |
| ProcTable.Ptable.Exit | proc.c:250-314 | the loops do what one exit step does; the branch for children that share pages is never taken; "init exiting" exactly for the first process |
| ProcTable.Ptable.Wait | proc.c:353-393 | the first zombie child is freed and its pid returned; without one, -1 exactly if there is no child or the caller was killed, and otherwise the caller sleeps on itself; no other slot changes |
| ProcTable.Ptable.Kill | proc.c:610-631 | the first process with the pid is killed and no longer asleep, every other is unchanged; -1 exactly when there is none |
| SleepRuns.RunInv | proc.c:551-608 | lock by lock, for any number of processes: who is going to sleep has nothing to take or will yet be woken |
| SleepRuns.NoLostWakeup | proc.c:551-608 | with both locks free a sleeper has nothing to take, or a producer that has unlocked is about to wake it |
| SleepRuns.NeverStuck | sleep1.p:24-120 | no run is stuck with something to take and a process asleep |
| PipeRuns.StepConserves | pipe.c:76-120 | every deposited byte is read once or still in the pipe, in order |
| PipeRuns.Conservation | pipe.c:76-120 | over every run what is read is a prefix of what was deposited, and the pipe holds the rest |
| PipeRuns.OwnIs | pipe.c:83-93 | a writer in the middle has deposited a beginning of its bytes |
| PipeRuns.WriteReturns | pipe.c:76-97 | pipewrite returns n with all bytes deposited, or -1 on a full pipe without readers or when killed |
| PipeRuns.ReadReturns | pipe.c:99-120 | over every run, piperead sleeps exactly on an empty write-open pipe unless killed, when it returns -1; otherwise it returns the number of bytes handed over, from the front, the smaller of n and what the pipe holds |
| PipeRuns.StepFrame | pipe.c:58-120 | a step touches no call but its own, except to wake it; the call is over exactly when it returns; only a close closes an end |
| PipeRuns.StepSleepIff | pipe.c:76-120 | sleepers have a reason after a step if and only if it is not a killed writer stranding a reader |
| PipeRuns.RunSleepOk | pipe.c:76-120 | in every such run a sleeping reader means empty and write-open, a sleeping writer full and read-open, never both |
| PipeRuns.NoKills | pipe.c:76-120 | runs without kills are such runs |
| PipeRuns.KillStrands | pipe.c:84-88 | a killed writer of 513 bytes leaves a reader asleep on a full pipe |
| Pipe.Pipe.constructor | pipe.c:30-36 | a new pipe is empty and open at both ends |
| Pipe.Pipe.Put | pipe.c:92 | the byte goes to the end of the pipe, across the wrap of the counters |
| Pipe.Pipe.Take | pipe.c:115 | the first byte leaves the pipe, across the wrap of the counters |
| Pipe.Pipe.Pipewrite | pipe.c:76-97 | the loop on the ring does what one stretch of the state machine does: it returns n with all bytes in the pipe, or the pipe is full and it returns -1 if killed or without readers, and otherwise sleeps |
| Pipe.Pipe.Piperead | pipe.c:99-120 | the loop on the ring does what one stretch of the state machine does: it hands over the first bytes of the pipe, as many as it returns, the smaller of n and what is there; sleeps exactly on an empty write-open pipe unless killed, and then returns -1 |
| Pipe.Pipe.Pipeclose | pipe.c:58-74 | closes one end, wakes the other side, frees the page exactly when both are closed |
| ShProofs.LineGood | sh.c:266-447 | every token of a parsed command is a whole word of the line, and no command has ten arguments |
| ShSyntax.Lexed | sh.c:266-309 | a text is read as the tokens it was written with, whatever blanks are around them, as long as two that would be read as one are apart |
| ShSyntax.Written | sh.c:266-309 | every text is its tokens with such blanks |
| ShProofs.RedirsParsed | sh.c:375-398 | redirections are taken in order, the first one innermost, a double arrow as output |
| ShProofs.ArgsParsed | sh.c:425-446 | words and redirections of a simple command in any order: the words go to the command, in order, and each redirection around what is there |
| ShProofs.PipesParsed | sh.c:362-373 | a pipeline nests to the right |
| ShProofs.LineParsed | sh.c:345-360 | a line of the grammar is parsed to the command it stands for, the marks for background and sequence binding weaker than the bar |
| ShProofs.LineRead | sh.c:345-447 | what the parser takes is a line of the grammar, and the command is the one it stands for |
| ShProofs.Parses | sh.c:328-343 | parsecmd returns the command that a line stands for, whatever its blanks |
| ShProofs.ParsesIff | sh.c:328-343 | parsecmd takes exactly the lines of the grammar and panics on every other text; two readings of one text are the same command |
| ShProofs.LineOfIs | sh.c:345-447 | every command with at most nine words is written by a line with parentheses only where the grammar needs them |
| ShProofs.RoundTrip | sh.c:328-447 | so written, with any blanks, it is parsed back to itself |
| Sh.Parser.constructor | sh.c:328-334 | a line in a buffer with a NUL behind it |
| Sh.Parser.Gettoken | sh.c:266-309 | the loops return the kind and the place of the token that the grammar reads, and move the cursor behind it |
| Sh.Parser.Peek | sh.c:311-321 | skips blanks and tells whether the next character is one of those asked for |
| Sh.Parser.Parseredirs | sh.c:375-398 | the redirections at the cursor in order, or the panic of a missing file |
| Sh.Parser.Parseblock | sh.c:400-414 | the parenthesised command that the grammar reads; ends |
| Sh.Parser.Parseargs | sh.c:425-446 | the words and redirections that the grammar reads; panics exactly on a symbol or the tenth word |
| Sh.Parser.Parseexec | sh.c:416-447 | the simple command or block that the grammar reads; ends |
| Sh.Parser.Parsepipe | sh.c:362-373 | the pipeline that the grammar reads; ends |
| Sh.Parser.Parseline | sh.c:345-360 | the line that the grammar reads; ends |
| Sh.Parser.Nulterminate | sh.c:450-494 | a NUL after every token and no other change of the buffer |
| Sh.Parser.Parsecmd | sh.c:328-343 | the command the line stands for, each token intact as a C string in the buffer; panics exactly if the line is not in the grammar |
| Grep.PrintRead | grep.c:84-96 | every text is the text of the pattern it is read as |
| Grep.ReadPrint | grep.c:84-96 | a pattern is read back from its text if and only if no single character stands before a star and no single dollar sign ends it |
| Grep.MatchHere | grep.c:84-96 | accepts exactly if the beginning of the text can be cut into pieces that fit the pattern's items |
| Grep.MatchStar | grep.c:98-106 | the same for a repeated first character |
| Grep.Match | grep.c:72-82 | accepts exactly if the pattern fits somewhere, at the beginning if it starts with a caret, up to the end if it ends in a dollar sign |

## Left out

- Umalloc.Heap.Malloc: sbrk asked for a byte count that has wrapped, which needs a request above 0x7FFFFFF0 bytes (`Umalloc.RequestIff`); such a request is modelled as far as it is met from the free list or refused.
- Umalloc.Heap.Free: pointers that malloc did not return.
- Log.Log.EndOp: other processes holding buffers while the last call commits, which `LogCacheRuns` models step by step.
- Log.Log.LogWrite: the capacity test, made before the lock is taken, and the rest are one step.
- LogCacheRuns.RunInv: a commit's copy from one buffer to another and its bwrite are one step; the sleep of a process that finds a buffer held is not an event.
- Fs.FileSystem.Writei: the state after the panic "out of blocks"; the device's own code.
- Kalloc.Memory.Release: a page that is free already, which kfree does not detect.
- File.OpenFile.Write: writes of other processes between two chunks; pipes; on a device only that no block or inode changes; each chunk is its own log transaction.
- Sysfile.Files.Namex: other processes changing directories between two elements.
- Sysfile.Files.SysLink: interruption by other calls, which `LinkRuns` models step by step.
- Sysfile.Files.Dirlink: a disk without room for a larger directory, which stops the kernel in balloc (`Fs.FileSystem.Balloc`).
- Kvm.Setupkvm: the panic "PHYSTOP too high", a test on constants.
- IdeRuns.RunInv: a call for a block out of range, which stops the kernel when its request is started (`Ide.IdeDriver.Interrupt`).
- PipeRuns.StepSleepIff: a kill between a call's test of its killed flag and its sleep, which leaves it asleep with the flag set; here a kill always wakes.
- PipeRuns.RunSleepOk: an end is closed only when no call through it is left, as the reference counts of open files ensure.
- ProcRuns.RunInv: threads; a page directory made by copyuvm or exec is one no process uses; process ids do not wrap.
- The bytes of inodes inside inode blocks, and of directory entries inside directory blocks: both are records here (`FsCrash` takes any way to read them).
- The thread layer (thread.c, and clone, exit_thread and wait_thread in proc.c): its natural invariants do not hold.
- allocuvm, loaduvm, inituvm, copyout and uva2ka; numfreepages as a count.
- grep's line buffer, and the shell's runcmd and main.
- mkfs, exec, ELF loading, traps, system call arguments, file descriptors, sbrk's own code.
- Console, keyboard, serial line, interrupt controllers, timer, boot code and assembly.
- The scheduler's choice of process: any runnable process may be dispatched.
