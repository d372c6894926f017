# xv6: storage, processes, memory, shell and grep, modelled and proved

A Dafny model of the parts of xv6 that keep a promise over many steps, with the proofs that they keep
it. `dafny verify dfyconfig.toml` checks everything. Files come in pairs: a `...Spec` or `...Machine`
file holds the entities, the invariants and the theorems; a `...Code` file holds the source's own
loops and field updates, as classes over arrays and fields, each method proved equal to what the
specification says.

- **Log** (`LogSpec`, `LogMachine`, `LogCode`). A crash may come before every block write of a commit
  or a recovery. The machine runs any number of processes through begin_op, log_write and end_op with
  crashes and interrupted recoveries in between; `hist` records the image committed at each header
  write. The result is that recovery always yields the newest image.
- **Files and blocks** (`Blocks`, `FsSpec`, `FsCode`). The free map, the direct and indirect pointers,
  and a file's content as a byte string; `owner` names the one slot that refers to a block.
- **Buffer cache** (`CacheSpec`, `CacheCode`). A list in least-recently-used order, pinned dirty
  buffers, and a ghost `view` of the last content given to each block; each process goes through
  bget, acquiresleep, bread, brelse at its own pace. NBUF is arbitrary.
- **Directories** (`DirSpec`, `DirRuns`, `DirCases`, `DirCode`). Link counts over whole runs of create, mkdir,
  mknod, link, unlink, open and close, from any live working directory. `DirCases` holds the
  exceptions.
- **Heap** (`HeapSpec`, `HeapCode`). The circular free list of malloc and free in a memory of headers.
- **Processes** (`SleepLock`, `ProcMachine`, `ProcCode`). Sleep and wakeup with two locks, one lock
  operation at a time; the process table with any number of CPUs, one critical section at a time.
- **Pipe** (`PipeSpec`, `PipeMachine`, `PipeCode`). The ring with wrapping counters, and any
  interleaving of readers and writers, one stay inside the lock at a time.
- **Page tables** (`VmSpec`, `VmCode`). Directories and tables are the contents of frames (32-bit
  paging, section 4.3 of the Intel 64 and IA-32 SDM, volume 3A). An address space is what they map; a
  frame is free, owned by one address space, or in hand.
- **Shell** (`ShellSpec`, `ShellCode`). The grammar on the characters left to read, a printer that puts
  parentheses where the grammar needs them, and the parser over one buffer.
- **Grep** (`Grep`). The language of a pattern as a concatenation of item languages, and the matcher.

Where the code does not do what its comments or callers expect, the model follows the code, shows an
input, and says exactly when it does:

- mkfs makes the log area one block too small for three worst-case operations
  (`SmallLogCanPanic`, `NewBlockNeverPanics`), and log_write panics on a full log even when the block
  would be absorbed (`LogWritePanicsExactly`, `AbsorbedWriteCanPanic`). With the larger log area NBUF
  is too small by one: 30 logged blocks pin all 30 buffers (`FullLogStarves`, `BgetHasRoom`).
- nlink is a 16-bit short and link does not check it (`LinkKeeps`, `DoKeeps`; `LinkOverflows`, which
  takes more directory blocks than mkfs's disk of 1000 blocks has).
- A relative path can make an entry in a directory already removed, and then the counts are wrong
  (`CreateInDeadBreaks`, `LinkInDeadBreaks`, `DeadDirRun`).
- kill matches the pid field of free slots, so kill(0), or a pid left behind by a failed fork, marks a
  process that does not exist yet (`NextKeepsClean`, `KillZeroDoomsNextChild`).
- A killed pipe writer returns without waking the readers (`NextKeepsJustified`, `KillStrands`).
- malloc's rounding wraps for the last few sizes (`NUnitsSuffice`), and from 2 GB on sbrk is asked for a
  negative count (`SbrkAsksEnough`).

sbrk's answer, whether a fork's allocations succeed, and the process that runs next are parameters or
choices of the step. Inode numbers are assumed to fit a directory entry's 16 bits, pids are unbounded,
and a C string is the sequence of its characters before the NUL.

## Model
| member | source | states |
|---|---|---|
| Blocks.WordOfSetWord | homeworks/xv6-public/log.c:107-110 | a 32-bit word stored little-endian in a block reads back, and no other word of the block changes |
| Blocks.BitOfPutBit | homeworks/xv6-public/fs.c:69-70 | setting or clearing one bit of a map block changes that bit and no other |
| Blocks.StoreWord | homeworks/xv6-public/fs.c:393 | storing one entry of an indirect block gives a block that differs in that entry only |
| LogSpec.HeaderRoundTrip | homeworks/xv6-public/log.c:91-94 | the header block written for a list of blocks is read back as exactly that list |
| LogSpec.WriteLogEffect | homeworks/xv6-public/log.c:182-189 | write_log stopped anywhere has copied exactly the blocks passed, in order, and touched nothing outside the log area |
| LogSpec.InstallEffect | homeworks/xv6-public/log.c:74-81 | install_trans stopped anywhere has given exactly the home blocks passed their logged content |
| LogSpec.InstallKeepsRecovers | homeworks/xv6-public/log.c:68-82 | a disk from which recovery yields an image still does after any number of install steps |
| LogSpec.ClearKeepsRecovers | homeworks/xv6-public/log.c:115-122 | clearing the header after a full install keeps what recovery yields |
| LogSpec.RecoveryYields | homeworks/xv6-public/log.c:115-122 | one complete recovery leaves exactly the committed image on the home blocks and an empty log |
| LogSpec.RecoveryCrashSafe | homeworks/xv6-public/log.c:115-122 | a crash after any number of recovery writes loses nothing: recovery run again yields the same image |
| LogSpec.CommitCrashAtomic | homeworks/xv6-public/log.c:192-202 | a commit stopped after any number of block writes recovers to the old image up to the header write and to the whole group from it on |
| LogSpec.EveryCommitDiskRecovers | homeworks/xv6-public/log.c:192-202 | the same for every one of the disks a commit passes through, listed write by write |
| LogSpec.EveryRecoveryDiskRecovers | homeworks/xv6-public/log.c:115-122 | the same for every disk a recovery passes through |
| LogMachine.NextKeepsInv | homeworks/xv6-public/log.c:126-202 | every step of begin_op, log_write, end_op, commit, crash and recovery keeps the log invariant |
| LogMachine.CrashSafety | homeworks/xv6-public/log.c:115-202 | after any run with any crashes, one more crash and a complete recovery leave the newest image ever committed; history never shrinks |
| LogMachine.CommitDurable | homeworks/xv6-public/log.c:146-173 | from the end_op that starts a commit to its return, whatever others do in between: what the cache held when the commit began is on disk at home and is the newest image, and the log is empty |
| LogMachine.CommittingStep | homeworks/xv6-public/log.c:149-174 | while a commit is under way no step but a crash and the commit's end changes what any process reads from the home blocks |
| LogMachine.HistoryGrowsAtHeaderWrite | homeworks/xv6-public/log.c:101-113 | the header write is the only step that changes what a crash and recovery would give: from the old image to what the cache holds; every other step, crashes and recovery writes included, leaves it as it was |
| LogMachine.ReservationHolds | homeworks/xv6-public/log.c:126-141 | blocks logged plus what open operations may still add never exceed LOGSIZE; an operation with allowance left finds room |
| LogMachine.NewBlockNeverPanics | homeworks/xv6-public/log.c:218-221 | with a log area of LOGSIZE + 1 blocks a log_write within the allowance never panics |
| LogMachine.LogWritePanicsExactly | homeworks/xv6-public/log.c:218-221 | in every reachable state an open operation's log_write panics exactly when the log is full, absorbed or not |
| LogMachine.AbsorbedWriteCanPanic | homeworks/xv6-public/log.c:218-230 | the exception as a run: three operations within their allowance fill the log, and logging again a block already in it panics, however large the log area |
| LogMachine.SmallLogCanPanic | homeworks/xv6-public/mkfs.c:25 | for every smaller log area, mkfs's LOGSIZE blocks included, a run within the allowances reaches a log_write that panics |
| LogMachine.NobodyStranded | homeworks/xv6-public/log.c:126-174 | one committer at a time, none while operations are open; an idle log is empty; a process asleep in begin_op is owed a wakeup |
| LogCode.Log.WriteLog | homeworks/xv6-public/log.c:178-190 | write_log: the final disk and cache, and every disk on the way |
| LogCode.Log.InstallTrans | homeworks/xv6-public/log.c:69-82 | install_trans: the final disk and cache, and every disk on the way |
| LogCode.Log.WriteHead | homeworks/xv6-public/log.c:102-113 | write_head: one disk write of the header for the blocks in memory |
| LogCode.Log.ReadHead | homeworks/xv6-public/log.c:86-96 | read_head: the list in memory is the list in the header block |
| LogCode.Log.RecoverFromLog | homeworks/xv6-public/log.c:116-122 | recover_from_log: exactly the recovery of the specification, with every disk on the way |
| LogCode.Log.Commit | homeworks/xv6-public/log.c:193-202 | commit: exactly the commit of the specification, with every disk on the way |
| LogCode.Log.BeginOpPass | homeworks/xv6-public/log.c:129-140 | one turn of begin_op's loop: admits exactly when no commit runs and the worst case fits |
| LogCode.Log.EndOp | homeworks/xv6-public/log.c:146-174 | end_op: the count goes down; the last one out commits everything logged |
| LogCode.Log.LogWrite | homeworks/xv6-public/log.c:214-233 | log_write: the block is listed once (absorption), or the panic and no change to the list |
| FsSpec.OwnershipMeans | homeworks/xv6-public/fs.c:41-95 | a bit of the free map is set exactly for metadata and for blocks some inode slot refers to, and no two slots refer to one block |
| FsSpec.AttachDirectOwned | homeworks/xv6-public/fs.c:378-382 | filling a direct pointer with a block from balloc keeps ownership |
| FsSpec.AttachIndirectOwned | homeworks/xv6-public/fs.c:385-396 | filling an indirect entry with a block from balloc keeps ownership; the fresh indirect block has zero entries only |
| FsSpec.WriteDataOwned | homeworks/xv6-public/fs.c:496-501 | writing a data block changes no pointer, no free-map bit and no other file |
| FsSpec.MapAfterFree | homeworks/xv6-public/fs.c:82-95 | bfree of an owned block finds its bit set and clears exactly that bit |
| FsSpec.TruncOwned | homeworks/xv6-public/fs.c:408-435 | with its slots freed and zeroed a file is empty and every other file is as it was |
| FsCode.SpliceTwice | homeworks/xv6-public/fs.c:496-501 | writing a string piece by piece is writing it at once |
| FsCode.ChunkFitsTransaction | homeworks/xv6-public/file.c:133-138 | a chunk of filewrite logs at most MAXOPBLOCKS blocks even if each block it allocates has its own map block |
| FsCode.WriteLogFits | homeworks/xv6-public/fs.c:496-509 | the set of blocks a write logs is never larger than its cost |
| FsCode.WriteLogExact | homeworks/xv6-public/fs.c:370-400 | how many blocks a write logs: its cost, less the map blocks that serve more than one of the blocks the file gains |
| FsCode.ChunkBoundTight | homeworks/xv6-public/file.c:133 | a full chunk appended at byte 5633 logs ten blocks exactly when the four blocks gained come from four map blocks; a chunk one byte longer at byte 6144 logs eleven exactly when its five come from five |
| FsCode.LogPass | homeworks/xv6-public/fs.c:496-501 | the blocks one pass of writei logs are what the set of a write gains by it |
| FsCode.WriteContent | homeworks/xv6-public/fs.c:496-509 | blocks written pass by pass and the new size give the old content with the string spliced in |
| FsCode.Fs.Balloc | homeworks/xv6-public/fs.c:57-78 | balloc: the lowest free block, marked and zeroed; its panic exactly when none is free |
| FsCode.Fs.ScanMapBlock | homeworks/xv6-public/fs.c:65-74 | balloc's inner loop: the first clear bit of one map block within the disk |
| FsCode.Fs.Bfree | homeworks/xv6-public/fs.c:82-95 | bfree: one bit cleared; never called on a free block |
| FsCode.Fs.Bmap | homeworks/xv6-public/fs.c:373-400 | bmap: the block of that index, allocated if missing; no other slot and no content changes; exactly which blocks it logs |
| FsCode.Fs.BmapIndirect | homeworks/xv6-public/fs.c:384-397 | bmap past the direct pointers, with the indirect block made when needed |
| FsCode.Fs.Readi | homeworks/xv6-public/fs.c:453-476 | readi returns exactly the content from the offset, cut at the end of the file, or refuses an offset past it or a sum that wraps |
| FsCode.Fs.ReadBlock | homeworks/xv6-public/fs.c:468-473 | one pass of readi: the bytes of one block |
| FsCode.Fs.Writei | homeworks/xv6-public/fs.c:482-511 | writei splices the source into the content, or returns -1 exactly for an offset past the end, a wrapping sum or a size past MAXFILE, changing nothing; other files as they were; the blocks logged are exactly the set WriteLog |
| FsCode.Fs.WriteBlock | homeworks/xv6-public/fs.c:496-501 | one pass of writei: a piece of one block written and nothing else |
| FsCode.Fs.Itrunc | homeworks/xv6-public/fs.c:408-435 | itrunc: every block given back once, the inode empty, every other file as it was |
| FsCode.Fs.Filewrite | homeworks/xv6-public/file.c:118-156 | filewrite: the chunks together are one splice and no other file changes; -1 exactly for a start past the end of the file or an end past MAXFILE, with the whole chunks before that written; each chunk logs at most MAXOPBLOCKS blocks |
| CacheSpec.Lookup | homeworks/xv6-public/bio.c:69-76 | bget's first loop: the first buffer in list order that holds the block, or none does |
| CacheSpec.Victim | homeworks/xv6-public/bio.c:81-91 | bget's second loop: the last buffer in list order that is unused and clean |
| CacheSpec.NextKeepsInv | homeworks/xv6-public/bio.c:62-141 | every step of every process keeps the invariant: one buffer per block, unsaved content pinned, refcnt the number of references held, the sleep lock with the one process that has it |
| CacheSpec.CleanEqualsDisk | homeworks/xv6-public/bio.c:95-106 | a valid buffer that is clean and unlocked equals its block on disk |
| CacheSpec.CacheIsMap | homeworks/xv6-public/bio.c:62-141 | in every run, from bget to the end of brelse the buffer chosen holds the block asked for and no other buffer does, however long the process waits for the sleep lock; once bread returns it holds the content last given to that block, whatever was evicted in between |
| CacheSpec.GotIsKept | homeworks/xv6-public/bio.c:62-92 | a process that asked for a block keeps the buffer bget chose for it, in any run that follows |
| CacheSpec.HolderHolds | homeworks/xv6-public/bio.c:111-124 | between bread and brelse a process has the sleep lock, alone, and a reference is there to drop: bwrite's and brelse's panics never fire |
| CacheSpec.BgetHasRoom | homeworks/xv6-public/bio.c:78-92 | bget never panics while the logged blocks and the references held are fewer than the buffers |
| CacheSpec.FullLogStarves | homeworks/xv6-public/param.h:11-12 | a run of log_writes of as many blocks as there are buffers pins them all, and bget then panics for every other block |
| CacheSpec.RecycledIsClean | homeworks/xv6-public/bio.c:81-91 | the buffer recycled is clean, unused, and the least recently used such buffer |
| CacheCode.UnlinkLinked | homeworks/xv6-public/bio.c:132-133 | unlinking a buffer leaves the list of the others in order |
| CacheCode.InsertFrontLinked | homeworks/xv6-public/bio.c:134-137 | relinking a buffer behind the head puts it first |
| CacheCode.BCache.constructor | homeworks/xv6-public/bio.c:39-56 | binit: all buffers on the list, the invariant established |
| CacheCode.BCache.ScanForward | homeworks/xv6-public/bio.c:69-76 | the forward pointer walk finds what Lookup finds |
| CacheCode.BCache.ScanBackward | homeworks/xv6-public/bio.c:81-91 | the backward pointer walk finds what Victim finds |
| CacheCode.BCache.Bget | homeworks/xv6-public/bio.c:62-93 | bget: the step of the specification, or the panic exactly when no buffer is free |
| CacheCode.BCache.Acquire | homeworks/xv6-public/bio.c:72-73 | acquiresleep at the moment the lock is free, whoever had the buffer meanwhile |
| CacheCode.BCache.ReadIn | homeworks/xv6-public/bio.c:101-105 | the rest of bread: the buffer holds the content last given to the block this process asked for |
| CacheCode.BCache.Bread | homeworks/xv6-public/bio.c:96-106 | bread in one go, for a block nobody has locked: the locked buffer holds the block's current content |
| CacheCode.BCache.Write | homeworks/xv6-public/bio.c:110-116 | bwrite: the step of the specification, its panic never taken |
| CacheCode.BCache.Unlatch | homeworks/xv6-public/bio.c:122-125 | brelse's releasesleep, its panic never taken |
| CacheCode.BCache.Unref | homeworks/xv6-public/bio.c:127-140 | brelse's critical section: the reference dropped, the buffer first in the list when unused |
| CacheCode.BCache.Brelse | homeworks/xv6-public/bio.c:120-141 | brelse: the two steps in order |
| DirSpec.LinkKeeps | homeworks/xv6-public/sysfile.c:119-165 | link changes nothing when it fails; when it succeeds all link counts stay right exactly when the 16-bit count had room |
| DirSpec.CreateKeeps | homeworks/xv6-public/sysfile.c:242-283 | create keeps every link count right and every directory well formed, and returns a live inode of the type asked for |
| DirSpec.RoomForSubdir | homeworks/xv6-public/sysfile.c:270 | a directory has fewer links than entries, so counting one more subdirectory never overflows |
| DirSpec.UnlinkKeeps | homeworks/xv6-public/sysfile.c:185-239 | unlink never panics, changes nothing when it fails, and keeps every link count right |
| DirSpec.HoldReleaseKeep | homeworks/xv6-public/fs.c:332-352 | an inode without links is freed at exactly the last iput; references keep the invariant |
| DirSpec.MkfsInv | homeworks/xv6-public/mkfs.c:117-163 | mkfs's root directory satisfies the invariant |
| DirSpec.NamedIsLive | homeworks/xv6-public/fs.c:525-548 | a name found in a live directory leads to a live inode |
| DirSpec.ElementsOfSpell | homeworks/xv6-public/fs.c:596-618 | any number of slashes before, between and after names spells the same path; names are cut at DIRSIZ |
| DirSpec.WalkIsLive | homeworks/xv6-public/fs.c:625-657 | from a live directory namex reaches live inodes only |
| DirRuns.DoKeeps | homeworks/xv6-public/sysfile.c:117-283 | a failed call changes nothing; a call that returns keeps every link count right, except exactly a link to an inode with 32767 links |
| DirRuns.LinkCounts | homeworks/xv6-public/sysfile.c:117-283 | in every run from mkfs's root: nlink counts the entries naming an inode in live directories, "." aside; parents are live; names are distinct; a directory has one link more than subdirectories |
| DirRuns.EveryDirUnderRoot | homeworks/xv6-public/sysfile.c:241-283 | in every run, following ".." from any live directory reaches the root |
| DirRuns.CreateInDeadBreaks | homeworks/xv6-public/sysfile.c:260-278 | making an entry in a directory keeps the counts right if and only if the directory is live |
| DirRuns.LinkInDeadBreaks | homeworks/xv6-public/sysfile.c:140-152 | the same for link |
| DirRuns.UnlinkUndoesCreate | homeworks/xv6-public/sysfile.c:185-283 | unlink of a name just created gives every inode back as it was, but for an unused slot |
| DirRuns.ParentIsLive | homeworks/xv6-public/fs.c:667-670 | nameiparent of a path from a live working directory or the root is a live directory |
| DirCases.DeadDirRun | homeworks/xv6-public/sysfile.c:241-283 | the first exception as a run: mkdir, chdir, unlink, and a file made in the working directory, every call succeeding, ends with wrong counts |
| DirCases.LinkOverflows | homeworks/xv6-public/sysfile.c:140 | the second as a state: a file with 32767 names, all counted, and a link call that succeeds and makes the count negative |
| DirCode.Table.NextElem | homeworks/xv6-public/fs.c:596-618 | skipelem: the next element, cut at DIRSIZ, and the rest without leading slashes |
| DirCode.Table.DirLookup | homeworks/xv6-public/fs.c:533-545 | dirlookup: the first used entry with the name |
| DirCode.Table.IsDirEmpty | homeworks/xv6-public/sysfile.c:169-181 | isdirempty: no used entry after the first two |
| DirCode.Table.Enter | homeworks/xv6-public/fs.c:552-578 | dirlink: refused when the name is present, else the first unused slot or a new one |
| DirCode.Table.Create | homeworks/xv6-public/sysfile.c:242-283 | create, its updates in order, ends in the state the specification gives |
| DirCode.Table.Link | homeworks/xv6-public/sysfile.c:133-164 | sys_link after namei: count first, undone on failure |
| DirCode.Table.Unlink | homeworks/xv6-public/sysfile.c:201-238 | sys_unlink, its updates in order, with the inode freed by the last iput |
| DirCode.Table.NameX | homeworks/xv6-public/fs.c:625-657 | namex and nameiparent: the walk over the elements, one early for the parent |
| HeapSpec.FreeSorted | homeworks/xv6-public/umalloc.c:30-43 | a freed block keeps the list sorted by address with no two adjacent blocks and adds exactly its units |
| HeapSpec.FreeKeeps | homeworks/xv6-public/umalloc.c:24-44 | free of a live block: blocks stay pairwise disjoint and account for every unit sbrk gave |
| HeapSpec.GrowKeeps | homeworks/xv6-public/umalloc.c:46-61 | the same when a fresh region joins the heap |
| HeapSpec.CarveKeeps | homeworks/xv6-public/umalloc.c:75-84 | malloc hands out units that were free, from no live block, and loses none |
| HeapSpec.NUnitsSuffice | homeworks/xv6-public/umalloc.c:69 | the block looked for holds the bytes asked for exactly when the 32-bit rounding does not wrap |
| HeapSpec.PayloadHoldsNoHeader | homeworks/xv6-public/umalloc.c:84 | the units behind a live block's header hold no header of the allocator's |
| HeapCode.FreeRing | homeworks/xv6-public/umalloc.c:33-42 | free's header writes turn the ring of the old list into the ring of the new one |
| HeapCode.CarveRingWhole | homeworks/xv6-public/umalloc.c:76-77 | unlinking a whole block leaves the ring of the others |
| HeapCode.SbrkAsksEnough | homeworks/xv6-public/umalloc.c:50-54 | sbrk is asked for the units malloc then uses exactly when the request is below 2 GB or its rounding wrapped |
| HeapCode.CarveRingTail | homeworks/xv6-public/umalloc.c:78-82 | taking a block's tail leaves the ring with the block shortened |
| HeapCode.Umalloc.Place | homeworks/xv6-public/umalloc.c:30-32 | free's scan ends within one lap, at the block the freed one belongs after |
| HeapCode.Umalloc.Thread | homeworks/xv6-public/umalloc.c:33-42 | the two merges, by fields, are the two header writes of the specification |
| HeapCode.Umalloc.Free | homeworks/xv6-public/umalloc.c:24-44 | free: the heap of the specification, freep at the block below |
| HeapCode.Umalloc.Morecore | homeworks/xv6-public/umalloc.c:46-61 | morecore: at least 4096 units from sbrk join the list, and what was asked for now fits |
| HeapCode.Umalloc.Take | homeworks/xv6-public/umalloc.c:75-84 | unlinking what the search found, whole or tail |
| HeapCode.Umalloc.Malloc | homeworks/xv6-public/umalloc.c:63-90 | malloc takes the next block that fits from freep; otherwise it calls morecore once, and succeeds if that does |
| SleepLock.NextKeepsInv | homeworks/xv6-public/sleeplock.c:22-42 | every lock operation and assignment of acquiresleep, releasesleep, sleep and wakeup, and kill, keeps the protocol invariant |
| SleepLock.NoMissedWakeup | homeworks/xv6-public/proc.c:417-474 | in every run, with the inner lock free, a process asleep on the sleep-lock means somebody holds it |
| SleepLock.OneOwner | homeworks/xv6-public/sleeplock.c:22-32 | in every run at most one process owns the sleep-lock |
| SleepLock.SomebodyCanStep | homeworks/xv6-public/proc.c:417-474 | no deadlock: while any call is unfinished somebody in a call, the holder or the scheduler can move |
| SleepLock.Cell.Test | homeworks/xv6-public/sleeplock.c:26-30 | the test under the lock is the machine's step: taken, or told to sleep |
| SleepLock.Cell.Release | homeworks/xv6-public/sleeplock.c:37-39 | the fields are the owner's, and after the release those of the machine's next state |
| SleepLock.Cell.Holding | homeworks/xv6-public/sleeplock.c:44-53 | holdingsleep is true exactly for the process that owns the lock |
| ProcMachine.NextKeepsInv | homeworks/xv6-public/proc.c:74-497 | every critical section of fork, exit, wait, sleep, wakeup, kill, yield and the scheduler keeps the process-table invariant |
| ProcMachine.RunningIsOnOneCpu | homeworks/xv6-public/proc.c:323-356 | in every run a process is RUNNING exactly when it is the process of a CPU, and of one only |
| ProcMachine.FamilySafe | homeworks/xv6-public/proc.c:228-312 | in every run parents are alive, every process but init has one, and nobody sleeps in wait beside a zombie child |
| ProcMachine.ReapedOnce | homeworks/xv6-public/proc.c:273-312 | in every run the pids that exited are those reaped and those of zombies, none reaped twice; a zombie is on no CPU |
| ProcMachine.ExitWait | homeworks/xv6-public/proc.c:252-265 | exit wakes everyone who would otherwise sleep in wait beside a zombie child, init included |
| ProcMachine.NextKeepsClean | homeworks/xv6-public/proc.c:480-497 | free slots carry no kill at every step but exactly two: kill finding a free slot by its pid field, and a fork failing after its embryo was killed |
| ProcMachine.KillZeroDoomsNextChild | homeworks/xv6-public/proc.c:485-491 | kill(0) marks a free slot, and the next process forked is born killed |
| ProcMachine.FirstUnused | homeworks/xv6-public/proc.c:81-83 | allocproc's scan finds the first unused slot |
| ProcMachine.FirstZombie | homeworks/xv6-public/proc.c:283-287 | wait's scan finds the first zombie child |
| ProcCode.Ptable.Alloc | homeworks/xv6-public/proc.c:79-92 | allocproc: the first unused slot becomes an embryo with a fresh pid, or there is none |
| ProcCode.Ptable.Wakeup1 | homeworks/xv6-public/proc.c:458-465 | wakeup1: every sleeper on the channel, and nobody else |
| ProcCode.Ptable.Exit | homeworks/xv6-public/proc.c:250-265 | exit under the lock: the table of the specification |
| ProcCode.Ptable.Wait | homeworks/xv6-public/proc.c:279-311 | wait: a zombie child's pid exactly when there is one, -1 exactly when there is none and no child or a kill, else asleep |
| ProcCode.Ptable.Kill | homeworks/xv6-public/proc.c:484-496 | kill: the first slot with the pid, woken if asleep |
| ProcCode.Ptable.Pick | homeworks/xv6-public/proc.c:335-344 | the scheduler's scan: the next runnable process |
| PipeSpec.SlotOfWrapped | homeworks/xv6-public/pipe.c:93 | PIPESIZE divides 2^32: a wrapped counter names the same slot of data |
| PipeSpec.TestsAreExact | homeworks/xv6-public/pipe.c:85-114 | the full and empty tests on wrapped counters say exactly how many bytes wait |
| PipeSpec.PutManyRep | homeworks/xv6-public/pipe.c:84-94 | copying in appends what fits, in order |
| PipeSpec.TakeManyRep | homeworks/xv6-public/pipe.c:113-117 | copying out yields the oldest bytes not yet read, in order |
| PipeMachine.Fifo | homeworks/xv6-public/pipe.c:78-121 | in every run of readers and writers the bytes read are a prefix of the bytes written, at most PIPESIZE behind |
| PipeMachine.NextKeepsJustified | homeworks/xv6-public/pipe.c:78-121 | readers sleep only on an empty pipe and writers only on a full one, kept at every step but exactly a killed writer returning with a reader asleep and more to write than fits |
| PipeMachine.NeverBothAsleep | homeworks/xv6-public/pipe.c:85-112 | in every run, kills included, a reader and a writer are never both asleep |
| PipeMachine.NoKillNoStranding | homeworks/xv6-public/pipe.c:78-121 | in every run without kill no sleeper is stranded |
| PipeMachine.KillStrands | homeworks/xv6-public/pipe.c:86-89 | the exception as a run: a reader asleep beside a full pipe after a killed writer returned, no other call under way |
| PipeCode.Pipe.constructor | homeworks/xv6-public/pipe.c:33-36 | pipealloc's pipe is empty, whatever the page held |
| PipeCode.Pipe.PipeWrite | homeworks/xv6-public/pipe.c:83-98 | one stay of pipewrite inside the lock: ring, progress, outcome and wakeup |
| PipeCode.Pipe.PipeRead | homeworks/xv6-public/pipe.c:105-120 | one stay of piperead inside the lock: ring, bytes, outcome and wakeup |
| PipeCode.Pipe.PipeClose | homeworks/xv6-public/pipe.c:60-75 | pipeclose: one end closed and the other end's sleepers woken, as the machine's step; freed exactly when both are closed |
| VmSpec.Lookup | homeworks/xv6-public/vm.c:41-54 | what walking the two levels in memory finds is what the address space maps |
| VmSpec.AddTable | homeworks/xv6-public/vm.c:45-52 | a zeroed frame hooked into the directory adds a table and maps nothing |
| VmSpec.WritePte | homeworks/xv6-public/vm.c:73 | one entry written maps or unmaps exactly one page |
| VmSpec.UnmapSeparate | homeworks/xv6-public/vm.c:269-275 | unmapping a user page takes exactly its frame out of what the address space owns |
| VmCode.GrowShrinkRestores | homeworks/xv6-public/vm.c:222-279 | growing and then shrinking back gives the mapping back |
| VmCode.SkipTable | homeworks/xv6-public/vm.c:267-268 | skipping an absent page table skips no mapped page |
| VmCode.FreedEverything | homeworks/xv6-public/vm.c:290 | after deallocuvm(KERNBASE, 0) only the directory and its tables are left |
| VmCode.Machine.Kfree | homeworks/xv6-public/kalloc.c:60-77 | kfree: the frame goes to the head of the list; no other frame changes |
| VmCode.Machine.Kalloc | homeworks/xv6-public/kalloc.c:83-95 | kalloc: the head of the list, or 0 exactly when it is empty |
| VmCode.Machine.Freerange | homeworks/xv6-public/kalloc.c:47-53 | freerange: every frame of the range is free, once |
| VmCode.Machine.WalkAlloc | homeworks/xv6-public/vm.c:36-55 | walkpgdir with alloc: the table, made from a free frame if need be; 0 only when none is free |
| VmCode.Machine.Walk | homeworks/xv6-public/vm.c:41-43 | walkpgdir without alloc |
| VmCode.Machine.MapPages | homeworks/xv6-public/vm.c:61-80 | mappages maps the pages of the range to consecutive frames, or a prefix of them on failure; no frame is lost |
| VmCode.Machine.DeallocUvm | homeworks/xv6-public/vm.c:256-279 | deallocuvm unmaps exactly the pages from PGROUNDUP(newsz) to oldsz, frees their frames, and leaves all else |
| VmCode.Machine.AllocUvm | homeworks/xv6-public/vm.c:222-249 | allocuvm maps zeroed frames at exactly the new pages, or restores the mapping; every frame is accounted for |
| VmCode.Machine.FreeVm | homeworks/xv6-public/vm.c:284-298 | freevm returns exactly what the address space owned, each frame once |
| VmCode.Machine.SetupKvm | homeworks/xv6-public/vm.c:119-136 | setupkvm: the kernel mappings and nothing else, or every frame given back |
| VmCode.Machine.CopyUvm | homeworks/xv6-public/vm.c:316-345 | copyuvm: same flags and content on frames of its own, parent untouched; or every frame given back; the panic only for a missing page |
| VmSpec.RowFits | homeworks/xv6-public/vm.c:110-115 | the rows of kmap are ordered, disjoint, above KERNBASE and inside 4 GB |
| ShellSpec.RoundTrip | homeworks/xv6-public/sh.c:328-446 | every well-formed command, printed with parentheses where needed and parsed, is itself again |
| ShellSpec.ParseIsWellFormed | homeworks/xv6-public/sh.c:328-446 | every accepted line parses to a well-formed command, whose printed text parses to the same command |
| ShellSpec.ReadRedirs | homeworks/xv6-public/sh.c:375-397 | printed redirections are read back in order, the last outermost |
| ShellSpec.ReadExec | homeworks/xv6-public/sh.c:416-446 | printed words and redirections of a simple command are read back |
| ShellSpec.ReadBlock | homeworks/xv6-public/sh.c:400-413 | a parenthesised line and its redirections are read back |
| ShellSpec.LexWord | homeworks/xv6-public/sh.c:296-299 | a plain word is one token, ended by a blank |
| ShellCode.TokenReadsBack | homeworks/xv6-public/sh.c:450-493 | after the NULs every token read as a C string is its own slice |
| ShellCode.EndsAreNotPlain | homeworks/xv6-public/sh.c:465-472 | a NUL is written only at the end of the line or on a character no word contains |
| ShellCode.Parser.Lex | homeworks/xv6-public/sh.c:266-308 | gettoken: kind, slice and cursor |
| ShellCode.Parser.Next | homeworks/xv6-public/sh.c:311-320 | peek: cursor past blanks, and whether the next character is one of those asked |
| ShellCode.Parser.ParseRedirs | homeworks/xv6-public/sh.c:375-397 | parseredirs on the buffer agrees with the grammar |
| ShellCode.Parser.ParseExec | homeworks/xv6-public/sh.c:416-446 | parseexec on the buffer agrees with the grammar, panics included |
| ShellCode.Parser.ParseBlock | homeworks/xv6-public/sh.c:400-413 | parseblock on the buffer agrees with the grammar, panics included |
| ShellCode.Parser.ParsePipe | homeworks/xv6-public/sh.c:362-372 | parsepipe on the buffer agrees with the grammar |
| ShellCode.Parser.ParseLine | homeworks/xv6-public/sh.c:345-359 | parseline on the buffer agrees with the grammar |
| ShellCode.Parser.NulTerminate | homeworks/xv6-public/sh.c:450-493 | nulterminate writes a NUL at the end of every token and nowhere else |
| ShellCode.Parser.Parse | homeworks/xv6-public/sh.c:328-342 | parsecmd: the command of the line or its panic; afterwards every argv and file pointer is its own token |
| Grep.HereStar | homeworks/xv6-public/grep.c:99-106 | a starred character matches some accepted prefix with the rest after it |
| Grep.HereOne | homeworks/xv6-public/grep.c:93-94 | a plain character matches one accepted character with the rest after it |
| Grep.PlainIsSubstring | homeworks/xv6-public/grep.c:73-82 | a pattern without special characters matches exactly the texts that contain it |
| Grep.MatchHere | homeworks/xv6-public/grep.c:85-96 | matchhere is sound and complete for the language of the pattern at the start of the text |
| Grep.MatchStar | homeworks/xv6-public/grep.c:99-106 | matchstar's loop is "for some length" |
| Grep.Match | homeworks/xv6-public/grep.c:73-82 | match is 1 exactly when some substring of the text, anchored as written, is in the language of the pattern |

## Left out
- Interrupts, devices other than the memory disk, boot code, trap frames, swtch and the inside of spinlocks: an acquire is a guarded step, a context switch one step.
- Superblock and inode encoding on disk: inodes are records beside the blocks, and iupdate copies one record. Device inodes have no content.
- One disk and one set of sizes: a buffer's device number is 1, block sizes and table sizes are the source's; the number of buffers, processes, CPUs and inodes is arbitrary.
- `FsCode.Fs.Writei`: a disk that runs full in the middle is the panic of balloc, after which nothing is claimed but that the disk is full.
- Directory contents as file bytes: a directory is its entries in order; a disk that runs full while a directory grows is not modelled.
- Two calls on one directory at once, and a directory removed between namei and ilock: calls run one after another; references held by open files and working directories are kept.
- The inode cache (`iget`, its 50 slots and locks) and the open-file table (`filealloc`, `filedup`, `fileclose`): only their effect on when an inode is freed.
- mkfs copying files into the image and rounding up the root directory when it already fills a block exactly, which leaves a hole.
- The cache and the log are two machines: the log reads and writes the cache's view, and the cache's count of buffers takes the blocks of the log as given.
- `HeapCode.Umalloc.Malloc`: sbrk is assumed to give new memory above base, as many units as malloc then uses; `SbrkAsksEnough` says for which sizes it is asked for them. A negative count makes sbrk shrink the process, which is not modelled.
- `ShellCode.Parser.ParseRedirs`: returns the files and wraps them afterwards; the source wraps the exec node first and fills its argv through the inner pointer. runcmd and the terminal are not modelled.
- `VmCode.Machine.CopyUvm`: after the panic for a missing page nothing is claimed; in this copy sbrk grows a process without mapping pages, so the panic can happen.
- loaduvm, inituvm, copyout, exec and the hardware's accessed and dirty bits.
- `ProcMachine.NextKeepsInv`: which runnable process the scheduler's scan finds next is any of them; growproc, file descriptors and memory of a process are elsewhere or out.
- Fairness: no missed wakeup and no deadlock are proved, not that every sleeper eventually runs.
- grep's line buffer, which drops a partial line when a read holds no newline.
