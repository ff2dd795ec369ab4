# A verified model of xv6 (x86) with a lottery scheduler

This project models the parts of the kernel and its tools that carry hard guarantees and proves
those guarantees for every input, every interleaving and every crash point. `dafny verify
dfyconfig.toml` checks all of it.

Table sizes (NBUF, LOGSIZE, MAXOPBLOCKS, NPROC, NCPU, NINODE, PIPESIZE, the disk size) are
parameters; block, inode and directory formats have the constants of fs.h. A kernel panic is a
result of its own, and where a panic is claimed never to happen the contract says so.

| modules | what they hold |
|---|---|
| Blocks, BufferCache | the LRU list with its pointers, flags and data, refining a map from block number to contents |
| LogRecovery, CrashRuns | the write-ahead log as sequences of block writes, and crashes between any two of them |
| Log, LogLife | log.c itself on the buffer cache, tied write by write to those sequences |
| GroupCommit | begin_op, log_write and end_op in every interleaving |
| Bitmap, Ownership, Inodes, FileView, FileSystem, FileRuns | balloc to writei on the block map: block ownership and file contents |
| BlockCount, MkfsImage, MkfsMain | the image builder, how many blocks it counts out, and the kernel mounting its image |
| Directories, InodeCache, Paths | directories as finite maps, references and locks, path walking |
| Links, LinkState, LinkCalls, UnlinkCall, CreateCall | link counts and the directory tree; sys_link, sys_unlink and create with their error paths |
| LinkRuns, Boot | chdir, any run of these calls, and such runs from a fresh image on |
| ProcTable, ProcSteps, ProcScan | the process table on many CPUs, what each call does to it, and the table scans of proc.c |
| Rand, RandReference, Lottery | MT19937 in place and against its reference, rejection sampling, the lottery |
| FreeList, Umalloc | the K&R allocator |
| PageTables, VirtualMemory | frames, two-level page tables, address-space copies |
| PipeRing, PipeProtocol, PipeStreams | the ring with wrapping counters, readers and writers in every interleaving, and the bytes each call moves |
| ShellGrammar, Shell, ShellText | the shell's parser, a printer, and nulterminate |
| Regex | the matcher of grep |

Six things the proofs bring out about the code:

- The log made by mkfs is one block too short (log.c:215, mkfs.c:25). The guard of log_write can
  panic, and because the guard is read before the lock is taken, two processes can also log one
  block more than there are slots without a panic there. `GroupCommit.GuardExact` and
  `GroupCommit.OverrunExact` say for every choice of the sizes when each can happen. As there are
  no more buffers than LOGSIZE, commit then finds them all pinned and panics: `Log.Log.Commit`.
- A writer killed on a full pipe returns without waking the readers (pipe.c:85-88), against the
  promise that a sleeping reader means an empty pipe. `PipeProtocol.ReadersAwakened` gives the exact
  condition.
- The first RUNNABLE slot has one ticket more than it was given, because the draw starts at 0 and
  the comparison is not strict (proc.c:305): `Lottery.LotteryShare`.
- mkfs rounds the root directory up by a whole block when its size is already on a block boundary
  (mkfs.c:159-163). That leaves an unmapped block inside the size, and nothing else does:
  `MkfsMain.Mkfs`.
- A name can be given inside a removed directory that is still somebody's working directory, and the
  link counts are then wrong: `Links.StepExact`.
- A process whose working directory was removed can walk by ".." to an inode that is free by then,
  and ilock panics. `Paths.Stuck` is the exact condition, which `LinkState.NeverStuck` rules out for
  every path that starts in a directory with links.

The bits of a byte are set and cleared arithmetically (`Bitmap.PutBit`), which is what `|` and `& ~`
with a one-bit mask do.

## Model

| member | source | states |
|---|---|---|
| BufferCache.Cache.constructor | bio.c:39-57 | After binit the list is one ring through every buffer and no buffer holds a block of the disk. |
| BufferCache.MoveToFront | bio.c:129-138 | Unlinking a buffer and relinking it behind the head leaves a doubly linked ring that is a permutation of the buffers, in order of release. |
| BufferCache.Cache.FindBlock | bio.c:70-80 | Finds the buffer of a block, or shows that no buffer holds it. |
| BufferCache.Cache.FindVictim | bio.c:82-94 | Finds the least recently released buffer that is neither busy nor dirty, or shows there is none. |
| BufferCache.Cache.Bget | bio.c:62-96 | Returns a cached block as it is, else recycles only a clean idle buffer; sleeps exactly on a busy holder and panics exactly when nothing is eligible; at most one buffer per block is kept. |
| BufferCache.Cache.Iderw | memide.c:38-59 | A dirty buffer is one block write; a clean invalid one becomes the latest contents of its block. |
| BufferCache.Cache.Bread | bio.c:99-109 | Returns the latest contents of the block in the abstract block map and changes neither that map nor the disk. |
| BufferCache.Cache.Bwrite | bio.c:112-119 | One block write after which disk and abstract map agree on the block. |
| BufferCache.Cache.Brelse | bio.c:123-142 | The buffer becomes the most recently released one; list and coherence are kept. |
| BufferCache.UncachedIsOnDisk | bio.c:82-94 | A block with no unsaved buffer is up to date on disk, so evicting clean buffers never changes the abstract block map. |
| LogRecovery.HeaderReadsBack | log.c:84-112 | The header words written by write_head read back as the same list of block numbers. |
| LogRecovery.RecoveryCrash | log.c:68-121 | Crashing after any prefix of the writes of recovery leaves a disk that recovers to the same contents. |
| LogRecovery.RecoveredIsClean | log.c:114-121 | Recovery ends with an empty log and the recovered contents in place. |
| LogRecovery.CommitCrash | log.c:173-199 | Crashing after any prefix of the writes of a commit gives the contents before the transaction, or after it exactly if the header write is in the prefix. |
| CrashRuns.LifeCrash | log.c:68-199 | Crash atomicity of a whole boot: after any prefix of the writes of recovery and any transactions, the recovered contents are those after exactly as many whole transactions as commit points reached the disk. |
| CrashRuns.LivesCrash | log.c:68-199 | The same over any number of boots, each crashing anywhere, recovery included. |
| Log.Log.ReadHead | log.c:84-95 | The in-memory header is the list the disk header encodes. |
| Log.Log.WriteHead | log.c:100-112 | One block write, of the header that encodes the in-memory list. |
| Log.Log.WriteLog | log.c:174-187 | The latest contents of the logged blocks go to the log slots, in order, and nothing else is written; it panics, before any write, exactly if the logged blocks pin every buffer. |
| Log.Log.InstallTrans | log.c:68-81 | The log slots go to their home blocks, in order, and every pinned buffer is unpinned. |
| Log.Log.RecoverFromLog | log.c:114-121 | The writes of the code are exactly the recovery writes of the crash theorems and leave cache and disk equal. |
| Log.Log.Commit | log.c:189-199 | The writes of the code are exactly the commit writes of the crash theorems, with nothing left pinned; it panics, before any write, exactly if the logged blocks pin every buffer. |
| Log.Log.BeginOp | log.c:124-140 | Grants an operation exactly when no commit runs and its reservation fits the log. |
| Log.Log.EndOp | log.c:144-171 | The last operation out commits all that was logged; an earlier one changes only the count; the exact condition of its one panic. |
| Log.Log.LogWrite | log.c:210-230 | Absorbs a block logged before, else appends it, and pins the buffer; refuses exactly on a full log or outside a transaction. |
| Log.Log.Update | log.c:203-209 | Read, modify, log_write, release changes the abstract block map at one block, writes nothing and logs the block once; it panics exactly on a guard of log_write or when a new block finds every buffer pinned. |
| LogLife.RunLife | log.c:52-230 | Recovery, then any begins, changes and ends, with operations that overlap, share commits and change a block again: the disk sees exactly the trace that the crash theorems speak about, and the run stops exactly where a stated panic occurs. |
| GroupCommit.GroupCommitSafe | log.c:124-230 | For every size of the log on disk and every interleaving in which an operation logs at most MAXOPBLOCKS times, as long as nothing has panicked: no commit with an operation open, distinct logged blocks, blocks plus unused reservations within LOGSIZE, and a sleeper always has someone to wake it. The first panic is the size guard of log_write; a log longer than LOGSIZE has none. |
| GroupCommit.GuardSilent | log.c:215-218 | An operation with calls left finds the header not full and an operation open, and panics exactly if the logged blocks fill the log on disk. |
| GroupCommit.GuardExact | log.c:124-230 | For n processes and room for one operation, no interleaving panics if and only if the log on disk is longer than LOGSIZE, or than MAXOPBLOCKS where two operations never overlap; mkfs makes it exactly LOGSIZE blocks long. |
| GroupCommit.ShortLogPanics | log.c:215-216 | For every shorter log there is an interleaving that panics. |
| GroupCommit.OverrunExact | log.c:210-230 | No interleaving without a panic brings more blocks into the log than it has slots, if and only if two operations never overlap or the log is longer than LOGSIZE (or holds nothing but its header): guard and append are not one step. |
| GroupCommit.ShippedLogOverruns | log.c:215-226 | With MAXOPBLOCKS 10, LOGSIZE 30 and the log of 30 blocks that mkfs makes, two processes can log 30 blocks into 29 slots without a panic. |
| GroupCommit.EverybodyFinishes | log.c:124-199 | No deadlock: from every state that a run without a panic reaches, all calls can run to their end, which leaves the log empty and nobody waiting. |
| GroupCommit.BeginExact | log.c:124-140 | begin_op is granted exactly if no commit runs and the reservation fits; otherwise the process sleeps and nothing else changes. |
| GroupCommit.LoggedStays | log.c:144-230 | A logged block stays in the log until a commit erases it. |
| Bitmap.BitAfter | fs.c:66-67 | Setting or clearing one bit of the map changes that bit and no other. |
| Ownership.OwnsMeansExclusive | fs.c:356-419 | The kept invariant says: a data block is marked exactly when some slot of some inode holds it, and no block is held twice. |
| Ownership.PutDirect | fs.c:362-374 | Storing a zeroed block in a slot changes that address only; for the indirect slot this needs the zeroing. |
| Ownership.PutIndirect | fs.c:375-380 | Storing an address in an indirect block changes one slot of one file. |
| Inodes.StoredReadsBack | fs.c:199-215 | A stored inode reads back and no other inode in its block changes. |
| FileSystem.FileSys.constructor | fs.c:162-169 | A disk whose blocks are owned exclusively can be mounted. |
| FileSystem.FileSys.Balloc | fs.c:53-75 | Takes the lowest free block, marked and zeroed; fails exactly when all are marked. |
| FileSystem.FileSys.Bfree | fs.c:78-93 | Clears the bit; the panic fires exactly when it was clear. |
| FileSystem.FileSys.Bmap | fs.c:356-384 | Finds a mapped block without any change; maps a missing one to zeros so that no file's contents change and ownership holds; fails only past MAXFILE or on a full disk. |
| FileSystem.FileSys.Iupdate | fs.c:199-215 | The inode on disk becomes the one in memory; contents, addresses and other inodes are kept. |
| FileSystem.FileSys.Itrunc | fs.c:391-419 | The file is empty, exactly the bits of the blocks it held are cleared, "freeing free block" is silent, and no other file changes. |
| FileSystem.TruncatedBits | fs.c:391-419 | After truncation a bit is set exactly if it was set and the file did not hold the block. |
| FileSystem.FileSys.Readi | fs.c:434-458 | Returns the clipped slice of the file's bytes; without holes it changes nothing and cannot panic; fails exactly on a start past the end or a 32-bit overflow. |
| FileSystem.FileSys.Writei | fs.c:462-492 | Replaces exactly the bytes from off on, extending the file; other files, absence of holes and the equality of disk and memory inodes are kept; fails exactly on a bad start, 32-bit overflow or too long a file; panics only on a full disk. |
| FileSystem.GrewResult | fs.c:487-490 | An extending write ends with the disk inode equal to the memory inode although bmap never writes it. |
| FileRuns.Run | fs.c:356-492 | Any run of writei, readi and itrunc answers and ends as a table of byte sequences does, with exclusive block ownership throughout. |
| MkfsImage.MarkedBit | mkfs.c:237-251 | With the final bitmap in place a block is marked exactly if it was counted out. |
| MkfsImage.CountingTakes | mkfs.c:274-285 | Counting freeblock on is the kernel's allocation of that block. |
| MkfsImage.SbReadsBack | mkfs.c:97-115 | The kernel reads back the superblock that mkfs writes. |
| MkfsImage.Image.constructor | mkfs.c:94-115 | The blank image has the layout of the superblock, empty files and only its metadata marked. |
| MkfsImage.Image.Ialloc | mkfs.c:223-235 | The next inode, empty, with one link; no file changes. |
| MkfsImage.Image.Iappend | mkfs.c:255-297 | The data goes after the last byte of the file, with ownership, absence of holes and other files kept; it succeeds exactly if the file stays within MAXFILE and its blocks can be counted out, and counts out exactly the blocks the bytes need. |
| MkfsImage.Image.FixSize | mkfs.c:158-163 | Rounding the root's size up adds zero bytes; the image stays without holes if and only if the size was not on a block boundary, and the size stays a possible one if and only if it was below MAXFILE blocks. |
| MkfsImage.Image.WriteBitmap | mkfs.c:237-251 | The finished image marks exactly the blocks below freeblock, which are the metadata and the blocks that files hold, each held once. |
| MkfsImage.Build | mkfs.c:117-156 | After any sequence of ialloc and iappend each file is the concatenation of what was appended to it; it succeeds if and only if those files fit. |
| MkfsImage.MakeAndMount | mkfs.c:67-168 | Any such sequence, the rounding, the bitmap and a mount: succeeds if and only if the files fit; the kernel reads each file as that concatenation, finds no hole if and only if the root did not end on a block boundary, and a root of impossible size if and only if it had MAXFILE full blocks. |
| MkfsMain.RootIs | mkfs.c:117-153 | The root that main writes is the map from its dots and the distinct names to inodes. |
| MkfsMain.MadeVal | mkfs.c:117-163 | The image that main makes has right link counts and is a tree. |
| MkfsMain.Mkfs | mkfs.c:67-168 | main and a mount: succeeds if and only if the files fit; contents, names, link counts and tree are those of the arguments; sound if and only if the root does not end on a block boundary. |
| Boot.BootAndRun | mkfs.c:67-168 | From main of mkfs through a mount to any run of calls by a process in the root: link counts and tree are right in every state, and the run ends early only at a panic whose cause is stated. |
| Directories.Strncpy | string.c:68-79 | The field holds the name cut to its width and padded with NULs. |
| Directories.Namecmp | fs.c:497-501 | Zero exactly when the field holds the name cut to DIRSIZ. |
| Directories.Dirlookup | fs.c:505-529 | Found exactly when the directory's map has the truncated name, with its inode number and offset and one reference more; the only panic is a full inode cache; nothing else changes. |
| Directories.Dirlink | fs.c:532-559 | -1 exactly when the truncated name is there, with the reference of its lookup dropped again; otherwise the map gains it, in a free entry or at the end, and no other name or file changes. It panics only for want of a cache slot if the name is there, of a block or room in the directory if not. |
| Directories.ClearEntry | sysfile.c:211-213 | The map loses the name; the write cannot panic. |
| Directories.LinkedIs | fs.c:551-556 | Filling a free entry turns the map into itself with one name more, still without duplicates. |
| Paths.Skipelem | fs.c:576-599 | Yields the first non-empty component cut to DIRSIZ and a path with the others, or nothing exactly when there is none. |
| Paths.FirstComponent | fs.c:562-575 | The components are those of splitting at slashes and dropping the empty pieces. |
| Paths.Namex | fs.c:605-638 | Equals the fold of lookups over the components, or all but the last; files and locks are as before and reference counts differ by one reference on the result; panics only for want of a cache slot, or, and then always, when the walk must lock a free inode. |
| LinkState.NeverStuck | fs.c:615-620 | From a directory with links no path comes to a free inode. |
| Paths.TargetIsWalk | fs.c:605-638 | Without nameiparent the result is where following all names leads. |
| Paths.ParentIsWalk | fs.c:622-626 | With nameiparent the result is where all names but the last lead, if that is a directory. |
| InodeCache.Icache.constructor | fs.c:162-169 | An empty cache holds no reference and no lock. |
| InodeCache.Icache.Iget | fs.c:220-251 | One more reference, in the slot of the inode or an empty one; at most one slot per inode; fails exactly when no slot is left. |
| InodeCache.Icache.Idup | fs.c:255-262 | One more reference through the same slot. |
| InodeCache.Icache.Ilock | fs.c:266-295 | The inode is locked and references are as before; "no type" exactly on a free inode. |
| InodeCache.Icache.Iunlock | fs.c:298-308 | The inode is unlocked; references are as before. |
| InodeCache.Icache.Iput | fs.c:317-336 | One reference less; the file system changes exactly if it was the last one to an inode without links, which is then free and empty. |
| Links.LinkCounts | sysfile.c:115-281 | In every run of link, create, unlink and freeing that gives names only to linked directories and wraps no count, each count is the number of entries of linked directories, other than ".", that name the inode, and ".." leads from every linked directory to the root. |
| Links.StepExact | sysfile.c:115-281 | A call that has passed its own checks keeps that invariant if and only if the directory that gets a name has links and no 16-bit count wraps; otherwise no reading of the directories as a tree makes it hold. |
| Links.RemovedDirBreaks | sysfile.c:238-281 | mkdir, rmdir of it while somebody works in it, and creating a file there is a run that breaks the invariant. |
| Links.LinkKeeps | sysfile.c:133-143 | A second name for a file keeps counts and tree. |
| Links.CreateFileKeeps | sysfile.c:257-276 | A fresh file with one name keeps counts and tree. |
| Links.CreateDirKeeps | sysfile.c:265-276 | A fresh directory with its dots and its name keeps counts and tree, one level below its parent. |
| Links.UnlinkFileKeeps | sysfile.c:211-222 | Removing a name of a file keeps counts and tree. |
| Links.UnlinkDirKeeps | sysfile.c:206-222 | Removing an empty directory keeps counts and tree: the name and the ".." go together and the parent stays linked. |
| Links.FreeKeeps | fs.c:320-333 | Freeing an inode without links keeps counts and tree. |
| LinkCalls.SysLink | sysfile.c:115-162 | Links exactly when the old path leads to a non-directory and the new name is free: one count and one directory change, and every other inode and the bytes of every other file are kept; otherwise fails with count, files, tree, locks and references restored; panics only for want of a cache slot, a block or room in a directory, or on a path from a removed directory to a free inode. |
| UnlinkCall.Isdirempty | sysfile.c:165-178 | True exactly when no entry after the first two is in use. |
| UnlinkCall.SysUnlink | sysfile.c:181-236 | Removes exactly a name that is not a dot and not that of a directory in use; counts and tree stay right, also when it removes the working directory or starts from a removed one; the inode is freed exactly if nothing links or holds it; every other inode and the bytes of every other file are kept; panics only on a full inode cache or a walk to a free inode. |
| UnlinkCall.DirNotSelf | sysfile.c:202-204 | No directory names itself outside its dots, so locking the entry's inode cannot wait for the directory's own lock. |
| CreateCall.MakeInode | fs.c:176-196 | The lowest free inode becomes one of the wanted kind with one link; none free exactly on failure. |
| LinkRuns.SysChdir | sysfile.c:370-392 | A path to a directory makes it the working directory; the one before is let go, and freed exactly if it was removed and nobody else holds it. |
| LinkRuns.MakeNode | sysfile.c:333-368 | mkdir and mknod: a free name gets an inode of that kind, major and minor, with references as before; see Create. |
| LinkRuns.RunCalls | sysfile.c:114-392 | In any run of link, unlink, mkdir, mknod and chdir in which names go only to linked directories and no count overflows, each call does what its own contract says, each count is the number of names, the directories are a tree, no inode in use is without link and reference, and the run ends early only at a panic whose cause is stated. |
| LinkRuns.LinkedIsFine | sysfile.c:114-392 | A call whose paths are absolute, or start in a working directory with links, never walks to a free inode and gives names only to linked directories. |
| CreateCall.Create | sysfile.c:238-281 | A free name gets a new inode of the kind, major and minor asked for, without bytes unless it is a directory, which gets its dots; a taken one opens only file for file; all else fails without change. Counts and tree stay right, every other inode and the bytes of every other file are kept, and the result is locked and referenced once more; panics only for want of an inode, a cache slot, a block or room in a directory, or on a walk to a free inode. |
| ProcTable.ProcessTableSafe | proc.c:132-442 | In every interleaving on any number of CPUs, with interrupts that wake sleepers on idle ones too: with the lock free RUNNING processes are one-to-one with CPUs, every process but init has a live parent, nobody sleeps in wait over a zombie child, and no CPU uses memory that wait freed. |
| ProcTable.ExitOk | proc.c:195-215 | exit keeps the table's invariant: orphans go to init and whoever must see the new zombies is awake. |
| ProcTable.ReapOk | proc.c:228-243 | Freeing a zombie's slot keeps the table's invariant. |
| ProcTable.WakeupOk | proc.c:426-433 | Waking a channel keeps the table's invariant. |
| ProcScan.Table.WakeupChan | proc.c:426-433 | Nobody sleeps on the channel any more; who did is RUNNABLE and otherwise unchanged, and so is everybody else. |
| ProcScan.Table.ExitUnderLock | proc.c:195-213 | The process is a zombie, its children are init's, exactly the parent's and, for an inherited zombie, init's sleepers are RUNNABLE, and all else is as before. |
| ProcScan.Table.FindZombie | proc.c:226-233 | The first zombie child, or none and whether there are children. |
| ProcScan.Table.WaitPass | proc.c:220-259 | A pass of wait frees a zombie child, fails without children or when killed, else sleeps. |
| ProcSteps.Lifecycle | proc.c:132-467 | In every reachable state and for every step a process changes its state only for one of the listed causes: who may make it EMBRYO, RUNNABLE, RUNNING, SLEEPING, ZOMBIE or UNUSED again. |
| ProcSteps.CpuCycle | proc.c:268-351 | A CPU moves only by its own steps, from the scheduler to a process and back in that order, and takes the lock only when it is free. |
| ProcSteps.WakeupWakes | proc.c:437-442 | After wakeup, by a process or an interrupt, nobody sleeps on the object; only its sleepers have changed. |
| ProcSteps.KillMarks | proc.c:448-466 | kill marks exactly its target, and a target that slept is RUNNABLE. |
| ProcSteps.ForkForks | proc.c:132-171 | fork gives a free slot its own memory, the caller as parent and makes it RUNNABLE; nobody else changes. |
| ProcSteps.SwitchSwitches | proc.c:268-394 | A CPU that leaves one process and picks another resumes that one where it slept, in wait or on its way out of the kernel, with its channel cleared. |
| ProcSteps.WaitReaps | proc.c:220-259 | A zombie child's slot is UNUSED, with no memory, no parent and no kill flag; without one the caller sleeps unless it has no child or was killed. |
| Rand.Generator.constructor | rand.c:47-48 | A new generator is unseeded. |
| Rand.Generator.Sgenrand | rand.c:51-61 | Any seed leaves the array as the first 624 terms of the sequence. |
| Rand.Generator.Twist | rand.c:72-90 | The three in-place segments turn 624 terms of the recurrence into the next 624. |
| Rand.Generator.Genrand | rand.c:63-99 | Call k after seeding returns the tempered term 624 + k of MT19937 with its top bit cleared. |
| RandReference.UntemperTemper | rand.c:91-94 | Tempering has an explicit inverse, so no two words are tempered to the same. |
| RandReference.FirstOutput | rand.c:51-99 | With the default seed 4357 the first word is 3510405877, as published for MT19937. |
| Lottery.RandomAtMost | rand.c:103-120 | The result is the bin of the first accepted draw. |
| Lottery.Uniform | rand.c:103-120 | Every result in 0..max has exactly bin_size accepted draws. |
| Lottery.MostAccepted | rand.c:103-120 | More than half of all draws are accepted. |
| Lottery.SumTickets | proc.c:288-293 | The sum of the tickets of RUNNABLE slots. |
| Lottery.Scan | proc.c:299-309 | The slot the draw selects, or none. |
| Lottery.SomebodyWins | proc.c:299-309 | Somebody is picked exactly if some slot is RUNNABLE and the draw is at most the total, however stale the sum. |
| Lottery.LotteryShare | proc.c:286-309 | The accepted draws that select a process number bin_size times its tickets, one ticket more for the first RUNNABLE slot. |
| Lottery.Round | proc.c:286-309 | Sum, draw and scan pick a winner whenever some slot is RUNNABLE. |
| Umalloc.Allocator.constructor | umalloc.c:21-22 | The allocator starts without a list. |
| Umalloc.Allocator.FindPlace | umalloc.c:29-32 | The walk ends at the one place in the address-ordered circular list where the block belongs. |
| Umalloc.Allocator.Free | umalloc.c:24-44 | The block's units become free; the list stays circular, address-ordered and without abutting blocks. |
| Umalloc.Allocator.Search | umalloc.c:72-88 | Once around the list finds a large enough block or shows there is none. |
| Umalloc.Allocator.Morecore | umalloc.c:46-61 | A region from sbrk joins the list and is large enough. |
| Umalloc.Allocator.MallocUnits | umalloc.c:68-89 | NULL exactly if no free block is large enough and sbrk refuses; otherwise the block overlaps no live one, and one region more was obtained exactly if no free block was large enough. |
| Umalloc.Allocator.Malloc | umalloc.c:63-90 | A block of the bytes asked for, rounded up to units; NULL exactly if no free block has them and sbrk refuses. |
| Umalloc.Conservation | umalloc.c:24-90 | Free and live blocks are disjoint and their units add up to those obtained from sbrk. |
| PageTables.PteAfter | vm.c:81-84 | Writing an entry changes that entry of that directory and no other. |
| PageTables.MakePte | vm.c:83 | The entry is present, names the frame and has every other flag of perm and no more. |
| PageTables.AllowedByPte | vm.c:45-65 | As every directory entry is open, what the hardware lets through at a page is what its table entry says. |
| PageTables.DropDir | vm.c:277-292 | Taking one address space away leaves the ownership of every other. |
| VirtualMemory.Memory.Kalloc | kalloc.c:79-95 | The first free frame, none exactly when the list is empty. |
| VirtualMemory.Memory.Kfree | kalloc.c:54-77 | The frame is filled with junk and becomes the first free one. |
| VirtualMemory.Memory.Walkpgdir | vm.c:45-65 | Afterwards the page has a table; what every directory maps is unchanged; fails exactly where it may not or cannot make one. |
| VirtualMemory.Memory.MapUserPage | vm.c:70-90 | One entry of one directory changes, and the frame belongs to that page alone. |
| VirtualMemory.Memory.MapKernelRange | vm.c:70-90 | Exactly the pages of the range are mapped, to consecutive frames; "remap" is silent; fails only with no frame left. |
| VirtualMemory.Memory.Setupkvm | vm.c:128-144 | A new directory in which every page of every line of the kernel's table is mapped to its frame, writable and user exactly as the line says, and nothing else; every frame in use keeps its use and contents; fails only with no frame left and at most 1 + 1024 at the start. |
| VirtualMemory.KernelProtected | vm.c:115-144 | With the shipped table the user gets at no page of the kernel's half, the kernel's text is read-only, and data, I/O space and devices are writable. |
| VirtualMemory.Memory.Deallocuvm | vm.c:249-273 | No page from newsz up to oldsz stays mapped and the frames are free, from a table boundary on or for contiguous memory, although the loop jumps over missing tables. |
| VirtualMemory.Memory.Freevm | vm.c:275-292 | Exactly the frames of the space become free; every other space is unchanged. |
| VirtualMemory.Memory.Copyuvm | vm.c:307-337 | Same user pages, flags and bytes, in frames that were free, and the kernel's mappings; every frame in use keeps its use and contents, on failure too; succeeds if more frames are free than a directory, all its tables and the pages take. |
| VirtualMemory.NotShared | vm.c:318-331 | No frame holds two user pages, of one space or of two. |
| VirtualMemory.Memory.CopyThenFree | vm.c:275-337 | Copying and freeing the copy gives back exactly the set of free frames. |
| PipeRing.Buffer.constructor | pipe.c:34-40 | A new pipe is empty. |
| PipeRing.Buffer.Store | pipe.c:83-94 | Stores bytes in order until done or full, with counters that wrap. |
| PipeRing.Buffer.Fetch | pipe.c:112-116 | Fetches the oldest bytes in order. |
| PipeRing.FullMeans | pipe.c:84-108 | The wrapped counters test equal exactly on an empty, or offset exactly on a full, ring. |
| PipeProtocol.PipeFifo | pipe.c:58-120 | In every interleaving bytes read are a prefix of bytes stored, at most PIPESIZE are in flight, and with the lock free a writer sleeps only on a full pipe with a reader's end. |
| PipeProtocol.ReadersAwakened | pipe.c:76-120 | Readers are never stranded in a run if and only if no killed writer leaves a full pipe while a reader sleeps. |
| PipeProtocol.ReadersAwakenedWithoutKill | pipe.c:58-120 | In a run without kill a reader sleeps, with the lock free, only on an empty pipe whose write end is open. |
| PipeProtocol.SilentExitStrands | pipe.c:85-88 | Such an exit strands the reader. |
| PipeProtocol.CloseCloses | pipe.c:58-74 | Closing an end that nobody uses wakes everybody who sleeps on the other side, and nothing else changes. |
| PipeProtocol.KillWakes | proc.c:453-459 | A kill marks its process and wakes it if it sleeps on the pipe; nobody else changes. |
| PipeProtocol.StrandedReader | pipe.c:85-88 | For every pipe size a run that does it. |
| PipeStreams.CallsExact | pipe.c:76-120 | In every interleaving each pipewrite puts in a prefix of its own buffer, all of it exactly if it returns the length and less if it returns -1; each piperead returns the number of bytes it took, at most n, and takes them in one piece. |
| PipeStreams.StreamExact | pipe.c:76-120 | The stream is an interleaving of what the writes put in: the bytes of each process, in order, are those of its writes; the same for the reads. |
| PipeStreams.OneToOne | pipe.c:76-120 | With one writer and one reader and no failed write, what the reads return, joined, is a prefix of the buffers written, joined, and all of them are put in when the writer is done. |
| PipeStreams.WhyReturned | pipe.c:84-119 | A write returns -1 exactly on a full pipe without readers or when killed; a short read has emptied the pipe, and a read of nothing has found its end. |
| Shell.Gettoken | sh.c:266-309 | Takes exactly the first token of the rest of the line and the blanks after it, or nothing at its end. |
| Shell.CharClasses | sh.c:263-264 | Which characters are blanks, symbols and parts of words. |
| Shell.PeekAt | sh.c:311-321 | Moves over blanks only and answers for the next character. |
| Shell.DoParseRedirs | sh.c:375-398 | Wraps the command in each redirection in turn, as the token grammar says. |
| Shell.DoParseExec | sh.c:416-447 | Reads words and redirections, or a block, as the token grammar says, which ShellGrammar.ExecExact spells out. |
| Shell.DoParseBlock | sh.c:400-414 | Reads a parenthesised line with redirections, as the token grammar says. |
| Shell.DoParsePipe | sh.c:362-373 | Pipes nest to the right, as the token grammar says. |
| Shell.DoParseLine | sh.c:345-360 | Backgrounds, then lists to the right, as the token grammar says. |
| Shell.DoParseCmd | sh.c:328-343 | Ends on every line, with the command of all its tokens or a syntax error. |
| ShellGrammar.ExecExact | sh.c:416-447 | A simple command, wherever redirections stand among its words, parses to the exec of the words in order wrapped in the redirections in order, each with its own file and mode; a panic exactly on too many words or something that cannot follow. |
| ShellGrammar.BlockExact | sh.c:400-414 | A block parses to its line wrapped in the redirections that follow it. |
| ShellGrammar.RoundTrip | sh.c:328-447 | Parsing the printed tokens of any command tree with at most 9 arguments per exec gives the tree. |
| ShellGrammar.Reprinted | sh.c:328-447 | Whatever a line parses to has at most 9 arguments per exec, and its printed form parses to the same. |
| ShellText.ShellRoundTrip | sh.c:266-447 | The same on text: the slices of the result read as the words printed. |
| ShellText.Nulterminate | sh.c:450-494 | A NUL goes exactly to the end of each word of the command. |
| ShellText.Parsecmd | sh.c:328-494 | Afterwards each argument and file name reads, as a C string, exactly as its token. |
| Regex.Match | grep.c:72-82 | True exactly when the pattern's declarative meaning admits a match at some position, position 0 after '^'. |
| Regex.MatchHere | grep.c:84-96 | True exactly when the text can be cut into one piece per atom from its start on. |
| Regex.MatchStar | grep.c:98-106 | True exactly when some run of the character is followed by a match of the rest. |

## Left out

- Boot code, interrupt controllers, the IDE, console and keyboard drivers, trap entry, swtch.S, system-call argument fetching, exec, file descriptors: hardware, assembly or easy members.
- Spinlocks are mutual exclusion and swtch is a step that hands a CPU over; interrupts and lock implementation are not modelled.
- Readi: the branch for T_DEV inodes (fs.c:440-444) hands over to a device driver and is not modelled.
- Writei: the same for fs.c:468-472.
- The buffer cache, the log and the file system are each modelled as run by one kernel thread at a time; interleavings are modelled where they are the point, in GroupCommit, ProcTable and PipeProtocol. The file system works on the block map that the cache refines and does not call log_write block by block.
- That one operation logs at most MAXOPBLOCKS times is a hypothesis of GroupCommit: filewrite takes its chunk size from LOGSIZE (file.c:132).
- RandomAtMost: stops after a given number of rejected draws, because the loop of rand.c:114-117 has no bound of its own; Lottery.MostAccepted says how likely a rejection is.
- Round: a draw may be missing for the same reason; the sum and the scan see the same table, and Lottery.SomebodyWins covers a table that changed between them.
- Tickets are non-negative and their sum stays below 2^31, which sys_settickets does not enforce (sysproc.c:104-113).
- Process ids, the contents of user memory and the failure of kernel-stack allocation inside fork beyond freeing the slot are not in ProcTable; kill of a slot that a failed fork left UNUSED is not modelled.
- Opening and sharing the ends of a pipe, freeing it after the second close, and the failure paths of pipealloc (pipe.c:46-55): the reference counts are those of file.c.
- Iput: the I_VALID flag is not modelled: an inode that was never locked would not be freed; the callers here free only what they locked.
- Ilock: waiting for a busy inode is not modelled, callers lock only what nobody holds; the copy it loads is the inode of FileSys.mem, on which disk and cache agree between operations.
- Namex: inodes in use without a link or a reference, as a crash can leave them on disk, do not occur.
- SysLink: the count that it raises is below 32767 and the directory that gets the name has links; Links.StepExact says that counts go wrong otherwise; one device only.
- SysUnlink: begin_op and end_op around the calls are the business of the log.
- Create: the kind asked for is not 0; the directory that gets the name has links, and its count is below 32767 when it gets a subdirectory, with Links.StepExact as the reason.
- RunCalls: a run by one process, in which every call that adds a name adds it to a directory with links and raises no count above 32767, whatever the calls before it did.
- BootAndRun: the root of the image does not end on a block boundary; MkfsMain.Mkfs says that the file system is sound exactly then.
- LinkCounts: the runs are those for which Links.StepExact proves that each step keeps the invariant.
- MakeAndMount: an image that runs out of blocks, or of bitmap bits in its first bitmap block, stops the build, where mkfs would write past the end or fail an assertion.
- Mkfs: names are what mkfs is called with; that they are distinct and not dots, which mkfs does not check, is needed for the directory to be a map.
- Kfree: the list is a sequence of frame numbers; the link stored in a freed frame's first word is not modelled, nor the alignment and range checks that valid frame numbers pass.
- Setupkvm: the kernel's table of mappings is a parameter; when frames run out half way its frames stay lost, as in the code (vm.c:139-142).
- Copyuvm: conservation is stated for copies that succeed; when mappages fails the frame just copied is lost, as in the code (vm.c:326-330). allocuvm, inituvm, loaduvm, clearpteu and copyout are left out as easier members.
- Malloc: sbrk is a parameter that names the next region or refuses; 32-bit overflow of the size computation is not modelled and the heap lies above the list's anchor.
- DoParseExec: the exec node that the code fills in while redirections already wrap it is filled through those wrappers; allocation of nodes is not modelled. `>>` redirects like `>`, as the code has it.
- runcmd, printf, grep's line buffering, usertests and the other user programs: I/O plumbing.
