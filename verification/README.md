# A verified model of the xv6 kernel and some of its user code

This project models the parts of the x86 xv6 teaching system (with its lazy page allocator) whose
correctness does not follow from reading one function: the crash-safe block log and the buffer cache
under it, block and inode allocation, file contents, directory link counts, sleep and wakeup, the life
of processes on several CPUs, page tables and frames, lazy against eager page allocation, pipes, the
disk queue, the user-level allocator, the shell's parser and grep's matcher.

Code that updates fields in place is a class with `modifies` clauses, proved against specification
functions on values; protocols with interleavings are state machines with an inductive invariant; the
matcher is proved against the language of its pattern, and the parser against a grammar over tokens.

| file | what it models |
|---|---|
| `LogCrash.dfy` | install, commit and recovery of the log, with a crash after any block write |
| `BufferLog.dfy` | buffer cache, log and disk together, refining an atomic store with crashes |
| `BufferList.dfy` | the cache's doubly linked LRU ring, `bget` and `brelse` |
| `GroupCommit.dfy` | `begin_op`, `log_write` and `end_op` run by any number of processes |
| `BlockBitmap.dfy`, `FileBlocks.dfy` | free map, `bmap`, `readi`, `writei`, `filewrite`, `itrunc` |
| `WriteLimits.dfy` | how many blocks one `writei` logs, at worst, against what `begin_op` reserves |
| `LinkCounts.dfy` | directories and link counts under `create`, `unlink` and `link` |
| `SleepWakeup.dfy` | `sleep` and `wakeup`, step by step |
| `ProcTable.dfy`, `ProcLife.dfy`, `ProcLaws.dfy` | the process table's loops; scheduling, `fork`, `exit`, `wait`; what follows over whole executions |
| `PageTables.dfy`, `Vm.dfy` | two-level page tables, frames, address spaces |
| `LazyAlloc.dfy`, `UserMemory.dfy` | the two page allocators as a user process sees them |
| `Pipe.dfy`, `Ide.dfy` | the pipe's ring and sleepers; the disk driver's queue |
| `Umalloc.dfy` | `malloc` and `free` |
| `Shell.dfy`, `ShellGrammar.dfy`, `ShellParser.dfy` | what the shell's parser computes, its grammar, and the parser on its buffer |
| `Regex.dfy` | grep's regular expressions |
| `Common.dfy` | parameters and helpers that several of these share |

## Where the code does less than one would expect

Each of these is kept as the code has it, shown on a concrete case or a whole family of cases, and
given the exact condition, one a caller could check beforehand, under which the expected property holds.

- `log_write` refuses at `log.size - 1` and mkfs makes the log LOGSIZE blocks long, so an operation that
  keeps to its reservation can still panic. If operations log at most cap blocks each, first-time writes
  always fit if and only if cap is at most MAXOPBLOCKS and the log area has more than
  MAXOPBLOCKS + 2 * cap blocks; for mkfs's log, if and only if cap is less than MAXOPBLOCKS
  (`GroupCommit.FreshWritesFit`). The test also comes before a repeated block is recognised, so a rewrite
  can panic however large the log area is (`GroupCommit.RepeatedWritePanics`). For writes of either kind by
  an operation that has logged at most m blocks: none is refused if and only if m < MAXOPBLOCKS and the
  log area has more than LOGSIZE - MAXOPBLOCKS + m + 1 blocks (`GroupCommit.WritesFit`).
- `filewrite` sizes its chunks from LOGSIZE, while `begin_op` reserves MAXOPBLOCKS blocks for each, and the
  reservation holds if and only if no operation logs more (`GroupCommit.ReservationIff`). A full chunk on
  an empty file logs 16 (`WriteLimits.ChunkOverruns`). Writes of at most k bytes, at any offset and in any
  state, log at most MAXOPBLOCKS blocks if and only if k <= 3 * BSIZE (`WriteLimits.AnyDiskLimit`), and on
  disks with one bitmap block, such as mkfs makes, if and only if k <= 6 * BSIZE + 1
  (`WriteLimits.SmallDiskLimit`). With mkfs's log as well, there is a bound that covers them and keeps
  first-time writes from being refused if and only if k <= 5 * BSIZE + 1 (`WriteLimits.MkfsLimit`). A chunk
  is 13 * BSIZE.
- `deallocuvm` steps 4 MB on from an absent page table without aligning, so it can jump over pages of the
  next table: it unmaps everything if and only if no mapped page lies in that stretch
  (`Vm.DeallocComplete`; `Vm.DeallocMisses` is a case of it).
- `sbrk` to exactly size zero frees the pages, keeps the size and reports failure; together with the
  stretch above these are the only shrinks on which the lazy allocator can be told from the default one
  (`LazyAlloc.LazyEqualsEager`, `LazyAlloc.OtherwiseDistinguishable`). `LazyAlloc.MissedPageStays` is a
  whole run that ends differently under the two.
- `create` and `link` take no notice of a directory that was unlinked after it was looked up: link counts
  stay right if and only if the directory still has a link (`LinkCounts.CreateOk`, `LinkCounts.LinkEndOk`).
  `LinkCounts.CreateInUnlinked` is a run that breaks a count.
- A killed writer that finds its pipe full returns without the wakeup at the end of `pipewrite`: readers
  are left asleep beside data if and only if they slept before, the writer is killed, and it has more than
  PIPESIZE bytes to write (`Pipe.Pipe.Write`, with the case `Pipe.KilledWriterStrandsReader`).
- `malloc` rounds and multiplies in 32 bits. The block it returns is in the process's memory and holds the
  bytes asked for if and only if they are at most 2^31 - 16 (`Umalloc.Allocator.Malloc`). Above 2^32 - 8 the
  rounding wraps and the block is one unit (`Umalloc.EnoughIff`). In between the count reaches `sbrk` as
  zero or negative (`Umalloc.SbrkArgumentIff`). Unless that shrinks the process to exactly zero, `sbrk`
  answers the old break without making room, and the process dies writing the header if and only if the
  break was at the start of a page or is moved down to or below it (`Umalloc.FaultsIff`, with the case
  `Umalloc.BlockKills`); otherwise the block is not in its memory (`Umalloc.BlockOutsideMemory`).
- `allocuvm` ignores the result of `mappages`. It fills the new pages if and only if the free frames cover
  them and the tables they lack. With fewer frames it strands the last one exactly when that is taken for
  a page without a table, and if the page is the last of the range it reports success without it
  (`Vm.Memory.AllocUvm`, with the case `Vm.LastFrameStrands`).
- `setupkvm` returns without freeing what it built. It succeeds if and only if 65 frames are free, and
  otherwise all that were free are lost (`Vm.Memory.SetupKvm`); `Vm.Memory.CopyUvm` gives the count for a
  whole copy and the frames lost when it fails.

Two smaller points: the `heap_start` test in the page-fault handler never fires, since the field is always
zero; and in the shell `>` and `>>` open the file alike, so a redirection here is only "in" or "out".

## Model

| member | source | states |
|---|---|---|
| `LogCrash.Log.InstallTrans` | log.c:68-81 | The disk after installing is the specified one, and so is every disk state on the way: the first k logged blocks are home. |
| `LogCrash.Log.ReadHead` | log.c:84-95 | The in-memory list becomes exactly the list the header block stores. |
| `LogCrash.Log.WriteHead` | log.c:100-112 | Only the header block changes and it then stores the in-memory list; with n = 0 only its count is cleared. One disk write. |
| `LogCrash.Log.WriteLog` | log.c:174-187 | Log block i gets the cached contents of transaction block i, nothing outside the log area changes, at any intermediate write. |
| `LogCrash.Log.Commit` | log.c:189-199 | For a crash after any block write: until the header write recovery yields the old home blocks, from it on exactly the transaction's; at the end the log is empty and the home blocks are the new ones. |
| `LogCrash.Log.LogTransaction` | log.c:193-194 | After write_log and write_head recovery yields the transaction; after every earlier write, the old contents. |
| `LogCrash.Log.InstallAndClear` | log.c:195-197 | Installing and clearing leaves the recovered disk; every disk on the way is one a crashed recovery may leave. |
| `LogCrash.Log.Recover` | log.c:114-121 | Recovery leaves exactly the recovered disk, and each intermediate disk is a crashed recovery of the original. |
| `LogCrash.Log.LogWrite` | log.c:210-230 | Refuses exactly under the source's two panic tests; otherwise the list absorbs the block and the cache has the new contents. |
| `LogCrash.CrashedRecoverySafe` | log.c:68-121 | A recovery that crashed anywhere loses nothing: recovering again yields the same home blocks. |
| `LogCrash.RecoveryAfterAnyCrashes` | log.c:68-121 | However often recovery itself crashes, the one that completes yields the same home blocks and an empty log. |
| `LogCrash.RecoveredHome` | log.c:114-121 | Completed recovery puts every home block where it should be, lists nothing, and a second recovery changes nothing. |
| `LogCrash.HeaderCommits` | log.c:100-112 | Once the header lists the blocks whose copies are in the log, recovery yields the transaction's contents. |
| `LogCrash.LogAreaIrrelevant` | log.c:174-187 | While the header lists nothing, whatever the log area holds, recovery yields the home blocks as they are. |
| `BufferLog.Refines` | bio.c:62-142 | Every step of cache, log, disk, crash and reboot keeps the invariant and is a step (or a stutter) of an atomic store with a durable copy. |
| `BufferLog.InitOk` | log.c:52-65 | Power-on with a cold cache and a sensible header satisfies the invariant and the specification's initial condition. |
| `BufferLog.RunInv` | log.c:124-230 | The invariant holds in every state of every run, crashes included. |
| `BufferLog.ReadersSeeLatest` | bio.c:62-110 | In any state of any run a block is cached at most once, and what a process finds in its buffer is the block's latest contents. |
| `BufferLog.BufferLaw` | bio.c:62-142 | A buffer has an owner exactly from bget to brelse, caches the block it was recycled for, is valid once fetched, and its data then change only by its owner's hand. |
| `BufferLog.HolderAlone` | bio.c:62-142 | In every run a buffer a process has read stays that process's, and as it left it, until its own next step on it or a power failure. |
| `BufferLog.NoEarlyHomeWrite` | log.c:189-199 | A home block changes on the disk only when the committed header already lists it. |
| `BufferLog.DurableStep` | log.c:189-199 | Only the commit's header write changes what recovery would restore; it makes it what readers see, with no operation in progress. |
| `BufferLog.CrashAtAnyPoint` | log.c:124-230 | Wherever a run is cut, recovery restores exactly what readers saw at some earlier moment with no operation in progress: operations are all or nothing. |
| `BufferLog.QuietDurable` | log.c:144-171 | Between transactions what readers see is exactly what recovery would restore. |
| `BufferLog.EndedSurvives` | log.c:144-199 | Durability: once the last end_op has returned, a power failure at any later point restores what readers saw then or later, never anything older. |
| `BufferLog.LogWriteStep` | log.c:210-230 | log_write pins the buffer and absorbs its number: the invariant stays and no reader sees a change. |
| `BufferLog.CommitHeadStep` | log.c:100-112 | The header write is the abstract commit: the durable copy becomes the readers' view. |
| `BufferLog.InstallStep` | log.c:68-81 | Installing a block, in commit or in recovery, is invisible in the view and in what recovery yields. |
| `BufferList.BufferCache.constructor` | bio.c:39-58 | binit links all buffers, each once, in both directions; none caches a block. |
| `BufferList.BufferCache.Bget` | bio.c:62-95 | The caching buffer if there is one (asleep on it if busy); else the least recently used clean, idle buffer, claimed; "no buffers" only if there is none. A block stays cached at most once. |
| `BufferList.BufferCache.Brelse` | bio.c:123-142 | The buffer is not busy and at the front; the others keep their order, and both directions of the ring agree. |
| `BufferList.BufferCache.Unlink` | bio.c:131-132 | The four-pointer surgery leaves a ring of exactly the other buffers, in order. |
| `BufferList.BufferCache.PushFront` | bio.c:133-136 | The buffer is linked in directly behind the head. |
| `BufferList.ToFrontLists` | bio.c:123-142 | Moving to the front permutes the list: every buffer is still on it, once. |
| `BufferList.UnlinkNext` | bio.c:131-132 | Closing the gap gives the forward pointers of the list without the buffer. |
| `BufferList.UnlinkPrev` | bio.c:131-132 | Closing the gap gives the backward pointers of the list without the buffer. |
| `GroupCommit.StepInv` | log.c:124-171 | Every step of any process keeps the invariant: what is logged plus what open operations may still log is at most MAXOPBLOCKS + 2 * cap, or 3 * cap if they log more than MAXOPBLOCKS. |
| `GroupCommit.Safety` | log.c:124-230 | For operations of any size cap, in every reachable state: that bound holds, a commit runs with no operation open, logged blocks are distinct, neither "log.committing" nor "outside of trans" is hit, a sleeper on the log has someone to wake it, and nobody sleeps whom begin_op would let in. |
| `GroupCommit.ReservationIff` | log.c:131 | What is logged and what open operations may still log fits LOGSIZE in every reachable state if and only if no operation logs more than MAXOPBLOCKS blocks. |
| `GroupCommit.StepLaw` | log.c:124-230 | A block is listed exactly from its log_write to the end of the commit; a process is in an operation exactly from a begin_op whose test admits it to end_op, and asleep exactly from one whose test does not to the next wakeup. |
| `GroupCommit.CheckStep` | log.c:214-218 | A first-time write of an operation of at most MAXOPBLOCKS blocks finds room if the log area is larger than a transaction can become. |
| `GroupCommit.FreshWritesFit` | mkfs.c:25 | With operations of at most cap blocks no reachable first-time write is refused if and only if cap <= MAXOPBLOCKS and the log area has more than MAXOPBLOCKS + 2 * cap blocks; with mkfs's log, if and only if cap < MAXOPBLOCKS. |
| `GroupCommit.RepeatedWritePanics` | log.c:214-226 | For every log area of more than one block, a reachable state in which rewriting a logged block panics. |
| `GroupCommit.WritesFit` | log.c:214-218 | No reachable write, first-time or repeated, of an operation that has logged at most m blocks is refused if and only if m < MAXOPBLOCKS and the log area has more than LOGSIZE - MAXOPBLOCKS + m + 1 blocks. |
| `BlockBitmap.ReplaceTest` | fs.c:53-93 | Setting one bit leaves the bit of every other block alone. |
| `BlockBitmap.Bitmap.Balloc` | fs.c:53-74 | The first free block, now in use; nothing else changes; none only if all are in use. |
| `BlockBitmap.Bitmap.Bfree` | fs.c:78-93 | Clears exactly that bit; refuses exactly a block that is free. |
| `FileBlocks.OwnedExactlyOnce` | fs.c:53-419 | A block's bit is set if and only if it is metadata or some inode slot refers to it, and then exactly one slot does. |
| `FileBlocks.FileSystem.Balloc` | fs.c:53-74 | The lowest free block comes back zeroed and marked; exactly its bitmap block and itself are logged; none only if every block is in use. |
| `FileBlocks.FileSystem.Bmap` | fs.c:356-385 | The block of the file's bnth block, only looked up inside the file; past it a block nobody owned, ownership still exact, no byte of any file changed, and the exact set of blocks logged. |
| `FileBlocks.FileSystem.IndirectBlock` | fs.c:370-373 | The indirect block, allocated zeroed if absent; no other slot changes. |
| `FileBlocks.FileSystem.ReadI` | fs.c:434-457 | Returns exactly the slice of the contents, fails exactly on the source's range tests, and changes nothing: bmap never allocates below the size. |
| `FileBlocks.FileSystem.WriteI` | fs.c:462-492 | New contents are the old with the data spliced in at the offset; all other files keep theirs; of the inode only size and addresses change, and nothing of it by a write inside the file; failure exactly on the range tests and then nothing changes; a panic exactly if fewer blocks are free than slots to fill; the exact number of blocks logged, at most LOGSIZE for a chunk and at most MAXOPBLOCKS for three blocks' worth. |
| `FileBlocks.FileSystem.CopyIn` | fs.c:479-485 | The loop writes exactly those bytes, block by block, and logs exactly the data blocks, one per block touched, the bitmap blocks of the lowest free blocks it takes, and the indirect block if it gains an entry. |
| `FileBlocks.FileSystem.FileWrite` | file.c:126-151 | The chunked write is one splice of all data; it fails exactly if the offset is past the end or the file would be too large, and then has spliced a prefix; every chunk logs at most LOGSIZE blocks, and at most MAXOPBLOCKS if the write is of at most 3 * BSIZE bytes. |
| `FileBlocks.FileSystem.IUpdate` | fs.c:199-217 | The disk inode becomes the in-memory inode; one inode block is logged. |
| `FileBlocks.FileSystem.Itrunc` | fs.c:391-419 | Frees exactly the blocks the inode owned, direct, indirect and the indirect block itself; bfree never finds one free; other files untouched. |
| `FileBlocks.LogSize` | file.c:126-132 | What a write logs: at most LOGSIZE blocks for a chunk, at most MAXOPBLOCKS for 3 * BSIZE bytes, and exactly the number `WriteCost` gives on a disk laid out as mkfs does. |
| `FileBlocks.AllocsFree` | fs.c:53-74 | After m calls of balloc exactly m blocks that were free are in use. |
| `WriteLimits.AnyDiskLimit` | file.c:126-132 | Writes of at most k bytes, at any offset in any state of any disk, log at most MAXOPBLOCKS blocks if and only if k <= 3 * BSIZE. |
| `WriteLimits.SmallDiskLimit` | file.c:126-132 | On disks with one bitmap block they log at most cap blocks if and only if k <= (cap - 4) * BSIZE + 1. |
| `WriteLimits.MkfsLimit` | mkfs.c:23-25 | With the log and disk of mkfs some bound on an operation's blocks covers all writes of at most k bytes and keeps first-time writes from being refused if and only if k <= 5 * BSIZE + 1. |
| `WriteLimits.ChunkOverruns` | file.c:132-143 | A full chunk on an empty file of mkfs's disk logs 16 blocks. |
| `WriteLimits.LongWriteOverruns` | fs.c:462-492 | A write of 3 * BSIZE + 1 bytes on a full, fragmented disk logs 11 blocks. |
| `WriteLimits.WriteOnce` | fs.c:462-492 | A write to a file of any sound disk with enough free blocks succeeds and logs exactly what `WriteCost` says. |
| `WriteLimits.Format` | mkfs.c:92-125 | An empty disk of any size, laid out as mkfs does, is a valid file system with all blocks behind the metadata free. |
| `FileBlocks.OwnerAdd` | fs.c:356-385 | Filling an empty slot with a free block keeps ownership exact. |
| `FileBlocks.OwnerDrop` | fs.c:391-419 | Emptying a slot and freeing its block keeps ownership exact. |
| `LinkCounts.FileTree.constructor` | mkfs.c:117-128 | The fresh tree with only the root satisfies the tree and count invariants. |
| `LinkCounts.FileTree.Dirlookup` | fs.c:505-528 | The first slot in use with that name, or none if the directory has no such name. |
| `LinkCounts.FileTree.Dirlink` | fs.c:532-558 | Fails exactly if the name is there; else the entry goes into the first empty slot or at the end, the directory has exactly one name more, and nothing else changes. |
| `LinkCounts.FileTree.IsDirEmpty` | sysfile.c:165-178 | True exactly if no slot after the two dots is in use. |
| `LinkCounts.FileTree.Ialloc` | fs.c:176-195 | The first free inode; none only if all are in use. |
| `LinkCounts.FileTree.Create` | sysfile.c:238-281 | Existing name, refusal or a new inode: the directory has exactly one name more, which leads to it, a new directory has exactly its two dots, no other inode changes; the invariants hold afterwards if and only if nothing was made or the directory was still linked. |
| `LinkCounts.FileTree.Unlink` | sysfile.c:181-235 | Fails exactly on dots, a missing name or a non-empty directory; otherwise exactly that name is gone, and only its inode's and, for a directory, the parent's count have gone down; keeps all counts; an unlinked directory ends at count 0. |
| `LinkCounts.FileTree.LinkBegin` | sysfile.c:115-139 | The count goes up before the entry exists; the invariant accounts for it as pending. |
| `LinkCounts.FileTree.LinkEnd` | sysfile.c:141-162 | The name is entered, exactly one more, or the count taken back; the invariants hold afterwards if and only if the count was taken back or the directory is still linked. |
| `LinkCounts.FileTree.Reclaim` | fs.c:317-336 | Freeing an inode without links keeps tree and counts. |
| `LinkCounts.CreateOk` | sysfile.c:238-281 | create keeps tree and counts if and only if the directory is still linked. |
| `LinkCounts.CreatedNames` | sysfile.c:238-281 | What create does to the names of the directory and of the new inode. |
| `LinkCounts.UnlinkedNames` | sysfile.c:181-235 | What unlink does to the names and counts. |
| `LinkCounts.DeadCreateMiscounts` | sysfile.c:238-281 | A create in an unlinked directory always breaks some inode's count. |
| `LinkCounts.DeadLinkMiscounts` | sysfile.c:141-162 | A link entered in an unlinked directory leaves the count one too high. |
| `LinkCounts.CreateInUnlinked` | sysfile.c:238-281 | The run mkdir, unlink, create in the unlinked directory makes a file with count 1 that breaks the count invariant. |
| `LinkCounts.UnlinkOk` | sysfile.c:181-235 | Unlinking keeps both for files and empty directories; such a directory's count was 1. |
| `LinkCounts.LinkEndOk` | sysfile.c:141-162 | Both ways a link can end, with the exact condition for each. |
| `LinkCounts.NamedOnce` | sysfile.c:181-235 | An empty directory other than the root is named by one entry, in the directory its dot-dot names. |
| `SleepWakeup.StepInv` | proc.c:388-443 | Every lock operation, scan step and condition change keeps the protocol's invariant. |
| `SleepWakeup.RunInv` | proc.c:388-443 | The invariant holds in every state of every run, for any number of processes, locks and channels. |
| `SleepWakeup.NoLostWakeup` | proc.c:388-443 | A sleeper for whom no wakeup is on its way sleeps on a condition that is false. |
| `SleepWakeup.CompletedWakeupWakes` | proc.c:426-443 | As long as a process stays asleep on a channel, a wakeup begun before still has it ahead of its scan: no wakeup completes past a sleeper. |
| `SleepWakeup.ModeLaw` | proc.c:388-443 | A process is asleep after a step exactly if it goes to sleep in it, or was asleep and is neither passed by a scan of its channel nor killed; it runs from dispatch to going to sleep. |
| `SleepWakeup.CondLaw` | sleep1.p:1-134 | A condition is true exactly if it was raised last. |
| `SleepWakeup.CallLaw` | proc.c:388-443 | How a process comes to hold a condition's lock, to owe a wakeup and to call sleep, which it does only on a false condition; when a scheduler has ptable.lock. |
| `SleepWakeup.SleepPath` | proc.c:388-423 | A call of sleep cannot pass being asleep, and comes back holding the lock it was called with. |
| `SleepWakeup.WakePath` | proc.c:426-443 | An owed wakeup scans from slot 0, slot by slot, to the end. |
| `SleepWakeup.DispatchedWasWoken` | proc.c:388-443 | In every run, a process dispatched out of sleep was passed by a scan of its channel or killed since it went to sleep. |
| `SleepWakeup.SleeperExists` | proc.c:388-423 | A run that leaves a process asleep for a false condition. |
| `SleepWakeup.NoDeadlock` | sleep1.p:1-134 | In every reachable state with a process not at rest some obligatory step is enabled: the locks are never in a cycle. |
| `ProcTable.Table.Wakeup1` | proc.c:426-434 | Exactly the sleepers on the channel become runnable. |
| `ProcTable.Table.Exit` | proc.c:224-239 | Slot by slot: the process a zombie, its parent woken, its children given to init, init woken exactly for an inherited zombie, nothing else changed. |
| `ProcTable.Table.Wait` | proc.c:252-283 | The first zombie child exactly if there is one; failure exactly if there is none and the process has no child or is killed; else sleep. |
| `ProcTable.WaitDecides` | proc.c:252-283 | The same of the function the state machine uses, for all three outcomes. |
| `ProcTable.Table.Alloc` | proc.c:42-56 | The search: the first unused slot becomes an embryo with the new pid; none only if all are in use. |
| `ProcTable.Table.Kill` | proc.c:448-466 | The first slot with that pid, and no other, is killed, and runnable if it slept; failure exactly if there is none. |
| `ProcLife.StepInv` | proc.c:159-466 | Every step of every CPU keeps the invariant over table, CPUs, stacks, parents and sleepers. |
| `ProcLife.RunInv` | proc.c:159-466 | The invariant holds in every state of every execution. |
| `ProcLife.ZombiesCollectable` | proc.c:202-285 | In every reachable state a started process other than init has a live parent, and a zombie's parent is not asleep in wait: no zombie is lost. |
| `ProcLife.RunningOnOneCpu` | proc.c:295-331 | In every reachable state a RUNNING process is current on one CPU and no other. |
| `ProcLife.StacksInUse` | proc.c:246-353 | In every reachable state no CPU runs on a freed kernel stack and no two CPUs on one stack. |
| `ProcLife.ExitWaits` | proc.c:202-242 | exit leaves no process asleep in wait beside a zombie child. |
| `ProcLife.MayWait` | proc.c:246-285 | Whoever goes to sleep in wait has a live child and no zombie child, so there is something to wait for. |
| `ProcLife.ExitInv` | proc.c:202-242 | exit keeps the whole invariant. |
| `ProcLife.PassInv` | proc.c:246-285 | One pass of wait, reaping, failing or going to sleep, keeps the whole invariant. |
| `ProcLife.ForkInv` | proc.c:159-195 | Each part of fork, failures included, keeps the whole invariant. |
| `ProcLaws.SleepLaw` | proc.c:388-466 | A process is asleep after a step exactly if it goes to sleep in it, or was asleep and is neither woken nor killed; then it is runnable. |
| `ProcLaws.LifeLaw` | proc.c:159-466 | For every step, exactly when a slot becomes or stays a zombie, running, unused, an embryo or killed, and what its pid and parent are. |
| `ProcLaws.ResumeLaw` | proc.c:340-423 | A process switched in goes on where it left off: in wait it scans again with the lock, otherwise it runs without. |
| `ProcLaws.AsleepUntilWoken` | proc.c:388-443 | In every execution a process stays asleep on its channel until a step wakes the channel or kills it. |
| `ProcLaws.ChosenWasWoken` | proc.c:295-331 | A process that a scheduler chooses after it went to sleep was woken or killed in between. |
| `ProcLaws.WaitReturns` | proc.c:246-285 | A pass of wait collects the first zombie child and frees its stack, returns without collecting exactly if there is none and the process has no child or is killed, and otherwise goes to sleep. |
| `ProcLaws.PidsDistinct` | proc.c:53-54 | In every reachable state the pids of slots in use are positive and distinct. |
| `ProcLaws.StacksConserved` | proc.c:35-285 | Conservation: in every reachable state the pages that are free or a kernel stack are those that were at boot, and each is only one of the two. |
| `ProcLaws.ScanComplete` | proc.c:295-331 | Between taking the lock and releasing it a scheduler looks at every slot, also behind the processes it ran. |
| `PageTables.TableAdded` | vm.c:45-66 | Installing an empty page table changes no mapping. |
| `PageTables.EntrySet` | vm.c:70-90 | Writing one entry changes the flat map at one page only. |
| `PageTables.UserMapped` | vm.c:70-90 | Mapping a user page to a frame of its own keeps exact ownership. |
| `PageTables.UserCleared` | vm.c:250-271 | Clearing a user page's entry gives up exactly its frame. |
| `PageTables.VisitsAll` | vm.c:250-271 | From an existing table or an aligned start the walk visits every page of an existing table. |
| `PageTables.VisitedExactly` | vm.c:250-271 | From any start, a page of an existing table is visited if and only if it is not in the stretch the first steps jump over. |
| `PageTables.OnePage` | vm.c:45-66 | Mapping one page takes a new table exactly when it has none. |
| `PageTables.DirStep` | vm.c:45-66 | The tables present after mapping a range page by page are the old ones and exactly those the range lacked, one frame each. |
| `Vm.Memory.Kfree` | kalloc.c:61-80 | The frame is at the head of the free list, its contents junk; the list stays threaded and without repetition. |
| `Vm.Memory.Kalloc` | kalloc.c:85-101 | The head of the free list, or 0 exactly if it is empty. |
| `Vm.Memory.FreeRange` | kalloc.c:47-55 | Exactly the whole frames in the range join the free list, once each. |
| `Vm.Memory.WalkPgdir` | vm.c:45-66 | Returns the page's table, making it if asked and possible; no mapping changes; fails exactly without a table and without permission or frame. |
| `Vm.Memory.MapPages` | vm.c:70-90 | Maps exactly the pages of the range in order, with exactly the tables they lack taken from the free list; stops exactly at a mapped page or for want of a table, and says where. |
| `Vm.Memory.SetupKvm` | vm.c:128-144 | Succeeds if and only if 65 frames are free; then a new directory holds the kernel's four mappings and nothing else; on failure all free frames stay taken. |
| `Vm.KmapDisjoint` | vm.c:115-125 | The four kernel ranges lie above the user half and do not overlap. |
| `Vm.KernelTabsAll` | vm.c:115-125 | The kernel's mappings use exactly 64 page tables, wherever its data starts. |
| `Vm.Memory.AllocUvm` | vm.c:220-243 | By the number of free frames: with one for each new page and each absent table, exactly the new pages are mapped, zeroed, on frames of their own; with fewer, one frame is lost exactly when the last is taken for a page without a table, success is reported exactly if that page is the last, and otherwise all mappings and contents are as before. |
| `Vm.Memory.AllocOver` | vm.c:220-243 | Over a page that is mapped already mappages panics if and only if the free frames cover the pages and tables before it and one more; otherwise the call fails and pages outside the range are as they were. |
| `Vm.Memory.DeallocUvm` | vm.c:249-271 | Unmaps and frees exactly the mapped pages its loop visits; returns the size the source returns. |
| `Vm.DeallocComplete` | vm.c:249-271 | Nothing in the range stays mapped if and only if no mapped page lies in the stretch that is jumped over. |
| `Vm.DeallocMisses` | vm.c:260-262 | A shrink to NPT + 5 pages with the second table absent and the third present leaves the third table's first five pages mapped. |
| `Vm.AllUndone` | vm.c:220-243 | The clean-up of a failed allocuvm removes every page it had added, and no other. |
| `Vm.LastFrameStrands` | vm.c:220-243 | One free frame and a kernel-only address space: allocuvm reports success, the page is not mapped, the frame is gone. |
| `Vm.Memory.FreeVm` | vm.c:277-292 | Exactly the frames of the address space are free again, and the frame count grows by their number. |
| `Vm.AllCleared` | vm.c:277-292 | The walk from 0 to KERNBASE misses no mapped page, however sparse the tables. |
| `Vm.Memory.CopyUvm` | vm.c:309-337 | Succeeds if and only if every page below the size is present and the free frames cover the kernel's 65, the pages and their tables; panics if and only if they last up to the first absent page; the copy has the same pages, contents and flags on frames of its own; the parent is untouched; the number of frames lost when memory runs out is a function of the number free. |
| `Vm.Gained` | kalloc.c:61-101 | Conservation: the free list grows by exactly the number of frames given back. |
| `LazyAlloc.StepMatch` | trap.c:50-85 | One sbrk, load or store gives the same result under both allocators and keeps the processes matched. |
| `LazyAlloc.LazyEqualsEager` | trap.c:50-85 | Over every run whose shrinks are allowed, lazy and default allocators give the same return values, the same words and death at the same accesses. |
| `LazyAlloc.OtherwiseDistinguishable` | proc.c:120-152 | After any other shrink one load tells the two allocators apart. |
| `LazyAlloc.MissedPageStays` | trap.c:50-85 | A run of sbrk, load, sbrk, load that reads a page under the lazy allocator and dies under the default one. |
| `LazyAlloc.KilledExactly` | trap.c:50-85 | An access kills the process if and only if it is at or above the size rounded up, under both allocators. |
| `LazyAlloc.EagerMissesNothing` | vm.c:249-271 | Under the default allocator a shrink never misses a page. |
| `LazyAlloc.StoreLaw` | trap.c:50-85 | Under either allocator a load finds the word stored there, and every other word is as it was. |
| `LazyAlloc.LoadLaw` | trap.c:50-85 | A load changes nothing another load could see. |
| `LazyAlloc.SbrkLaw` | proc.c:120-152 | A successful sbrk returns the old size, keeps every word below both sizes, and new pages read as zero. |
| `UserMemory.Process.Sbrk` | sysproc.c:46-59 | The old size or -1, and the new size, for every argument; on real page tables sbrk does what the page-level model says if and only if it does not grow eagerly or the free frames cover the growth; otherwise it fails with every page as it was, or, if only the last page's table is missing, succeeds without that page. |
| `UserMemory.Process.GrowEager` | proc.c:135-139 | The way up under the default allocator: how far the zeroed pages reach and what is returned, by the number of free frames. |
| `UserMemory.Process.ShrinkTo` | proc.c:141-147 | The way down removes exactly the visited pages. |
| `UserMemory.Process.PageFault` | trap.c:50-85 | On real page tables the handler does what the page-level model says if and only if a frame for the page and one for its table, if absent, are free; the new entry is present, writable and the user's, every other entry as it was; otherwise the process is killed, and its pages and the free list are as they were. |
| `UserMemory.PagesFilled` | vm.c:220-243 | Growing adds exactly zeroed pages to what the process sees. |
| `UserMemory.PagesCleared` | vm.c:249-271 | Shrinking takes exactly the visited pages from what the process sees. |
| `UserMemory.PagesTabled` | vm.c:45-66 | Every page table is a state of the page-level model: a present page has a table. |
| `Umalloc.Allocator.Search` | umalloc.c:30-32 | The search over the circular list ends, at the free block before the freed one. |
| `Umalloc.Allocator.Free` | umalloc.c:24-44 | The block joins the free list, merged with what it touches: ring, order, no two adjacent blocks, and every unit of the heap either free or in one allocated block. |
| `Umalloc.Allocator.Morecore` | umalloc.c:46-60 | By sbrk's answer: nothing changes, or the process dies writing the header, or the units asked for join the free list whether or not sbrk made room for them. |
| `Umalloc.Allocator.Malloc` | umalloc.c:63-90 | For every 32-bit request: morecore is called exactly if no free block is large enough; the outcome (block, 0 or death) is the one sbrk's answer gives; a block is nobody else's, of nunits units, and is in memory and holds the bytes asked for if and only if they are at most 2^31 - 16; the allocator stays valid if and only if the byte count reached sbrk intact. |
| `Umalloc.Allocator.Take` | umalloc.c:75-85 | Taking a block or its tail keeps the ring, the merging and the accounting of every unit. |
| `Umalloc.FreedRing` | umalloc.c:24-44 | After free's pointer writes the free blocks form one address-ordered circle. |
| `Umalloc.FreedCoalesced` | umalloc.c:33-42 | No two free blocks touch after a free. |
| `Umalloc.FreedCovers` | umalloc.c:24-44 | Exactly the units of the freed block become free. |
| `Umalloc.TakenCovers` | umalloc.c:75-85 | Exactly the units of the allocated block stop being free. |
| `Umalloc.TakenPool` | umalloc.c:63-90 | Allocation conserves the heap: each unit is free or in exactly one allocated block. |
| `Umalloc.FreedPool` | umalloc.c:24-44 | Freeing conserves the heap. |
| `Umalloc.EnoughIff` | umalloc.c:69 | The units computed for a request hold its bytes if and only if the rounding does not wrap. |
| `Umalloc.SbrkArgumentIff` | umalloc.c:52-54 | The argument of sbrk is the intended, positive one if and only if the request is at most 2^31 - 16 or has wrapped; otherwise it is zero or negative. |
| `Umalloc.MovedIsGrow` | sysproc.c:46-59 | The model's sbrk answers and resizes as growproc does under either page allocator. |
| `Umalloc.MovedPages` | proc.c:120-152 | The pages a process then has are those below the end the model gives. |
| `Umalloc.FaultsIff` | umalloc.c:54-58 | Writing the header at the old break kills the process if and only if the argument is garbled and the break was at the start of a page or is moved down to or below one. |
| `Umalloc.BlockOutsideMemory` | umalloc.c:63-90 | malloc(2^31) on a fresh allocator with the break inside a page returns a block that begins at the break. |
| `Umalloc.BlockKills` | umalloc.c:54-58 | malloc(2^31) with the break at the start of a page kills the process. |
| `Pipe.CountersMeet` | pipe.c:83-94 | The wrapping 32-bit counters tell empty, full and the slot exactly as unbounded ones would. |
| `Pipe.Pipe.Write` | pipe.c:77-96 | The bytes go in at the end, in order; returns, fails or sleeps exactly as the source does; nobody is left asleep without cause, except exactly when a killed writer has more than PIPESIZE bytes for a pipe with sleeping readers. |
| `Pipe.KilledWriterStrandsReader` | pipe.c:77-96 | An empty pipe with a sleeping reader and a killed writer of PIPESIZE + 1 bytes: the reader is left asleep beside a full pipe. |
| `Pipe.Pipe.Read` | pipe.c:99-120 | Returns exactly the next bytes written, as many as asked for and present; sleeps exactly on an empty pipe with a writer; keeps sleepers justified. |
| `Pipe.Pipe.Close` | pipe.c:58-74 | Closing an end wakes the other side and keeps sleepers justified; the pipe is freed exactly when both ends are closed. |
| `Pipe.Pipe.NotBothAsleep` | pipe.c:77-120 | Readers and writers are never asleep at the same time. |
| `Ide.Driver.Submit` | ide.c:133-163 | The request goes to the end of the queue, its process to sleep, buffers and disk are untouched, and the device still works on the head of the queue; that the buffer is not queued already follows from its holder being awake. |
| `Ide.Driver.Interrupt` | ide.c:99-129 | The head request completes and its process wakes: a write has put its data on the disk and nothing else there, a read has brought its block's data and changed no block; the buffer is valid and clean; requests complete in order of submission; the next is started. |
| `Ide.Driver.Append` | ide.c:147-151 | The loop over the pointer to the last link appends to the list. |
| `Ide.Driver.Acquire` | bio.c:62-95 | Claiming a buffer nobody holds disturbs no request. |
| `Ide.Driver.Modify` | bio.c:112-118 | The awake holder of a buffer may change it in any way between requests without disturbing any. |
| `Ide.Driver.Release` | bio.c:123-142 | Giving a buffer up disturbs no request. |
| `Ide.Driver.Transfer` | memide.c:37-59 | The device's command and the handler together do to disk and buffer what the in-memory driver does. |
| `Ide.SyncAllLatest` | memide.c:37-59 | After any requests a block holds the data of the last write to it, or what was there at the start. |
| `Ide.MoreAnswered` | ide.c:99-129 | Over every run of the driver: a completed read returned the data of the last completed write of its block, or the initial contents. |
| `Ide.Dequeued` | ide.c:99-129 | Everything the queue, the history and the disk promise still holds once the head is done. |
| `ShellParser.Parser.GetToken` | sh.c:266-308 | The next token by its characters: the end, >>, a symbol, or the longest word, with the white space around it skipped. |
| `ShellParser.Parser.PeekAt` | sh.c:311-321 | Skips exactly the white space and tells whether the next character is one of the given. |
| `ShellParser.Parser.Line` | sh.c:345-360 | The cursor-based parser returns what the grammar function says of the text at the cursor. |
| `ShellParser.Parser.Piping` | sh.c:362-373 | The same for pipelines. |
| `ShellParser.Parser.Redirs` | sh.c:375-398 | The same for redirections, in order. |
| `ShellParser.Parser.Block` | sh.c:400-414 | The same for parenthesised blocks. |
| `ShellParser.Parser.Executing` | sh.c:416-448 | The same for simple commands, the argument limit included. |
| `ShellParser.NulTerminate` | sh.c:450-494 | A NUL at the end of every word of the command, and no other change to the buffer. |
| `ShellParser.ParseCommand` | sh.c:328-343 | On any NUL-terminated line: the command of the grammar or its error, and the tree of C strings its pointers then lead to is the tree of the words of the line. |
| `Shell.WordsAreStrings` | sh.c:450-494 | No terminating NUL lands inside another word. |
| `Shell.LinePlaced` | sh.c:345-448 | Every word of a parsed command is a non-empty stretch of the line that ends before a blank, a symbol or the end. |
| `Shell.RoundTrip` | sh.c:328-448 | Parsing the fully parenthesised print of any command tree gives back the tree. |
| `ShellGrammar.ParserMeetsGrammar` | sh.c:328-448 | For every line: the parser returns command c if and only if the grammar, which builds its commands itself, derives c from the line's tokens, and reports an error if and only if the grammar derives nothing. |
| `ShellGrammar.LineSound` | sh.c:345-448 | What the parser reads from any position is a derivation of the command it returns. |
| `ShellGrammar.LineComplete` | sh.c:345-448 | Any derivation that is followed by a closing parenthesis or the end is what the parser finds. |
| `ShellGrammar.RedirsBuild` | sh.c:375-398 | A list of redirections nests in the order read, the last one outermost. |
| `ShellGrammar.RedirsAreList` | sh.c:375-398 | Nothing else is derived from redirections. |
| `Regex.Match` | grep.c:72-82 | grep's match is true if and only if the line matches the pattern's language, anchors included. |
| `Regex.MatchHere` | grep.c:85-96 | True if and only if a prefix of the text is in the language of the pattern (all of it, under a final anchor). |
| `Regex.MatchStar` | grep.c:99-106 | The same for a starred character followed by the rest of the pattern. |
| `Regex.PrefixCons` | grep.c:85-106 | The language of an item and a rest, split at every point of the text. |

## Left out

- Boot, trap entry, interrupts and devices other than the disk, spinlock internals, context switch code: hardware below the level of these properties.
- `exec`, ELF loading, `loaduvm`, `inituvm`, `copyout`, `clearpteu`: straight-line copying, or pages that are present but not accessible.
- Path lookup (`namex`, `skipelem`), names of at most DIRSIZ bytes, device inodes, more than one device: directories are addressed by inode number.
- The shell's `runcmd` and grep's line buffering: input, output and processes only.
- Shared-memory system calls: stubs in the source.
- Widths that do not matter to the properties: the 16-bit link count is unbounded; user memory is words; `malloc` addresses are 8-byte units and `sbrk` answers are aligned; pids do not wrap.
- Panics for want of blocks or inodes end the model's promise: results say so (`None`, `Panic`), and nothing is stated of the state after them.
- Interleaving of other processes between the chunks of one `filewrite`; each chunk is one transaction.
- mkfs rounds the root directory's size up past the next block boundary, which leaves a last block unallocated if and only if the size before was a multiple of BSIZE (mkfs.c:158-162); the model starts from files without holes.
- BufferLog.Refines: takes as given that a process logs a changed buffer before releasing it and holds no buffer when it ends its operation, and that log_write does not refuse; log.c asks the first two of its callers, and `GroupCommit` and `WriteLimits` say when the last holds.
- SleepWakeup.NoDeadlock: yields and timer ticks are left out, since they neither take a condition lock nor change a condition.
- ProcLife.StepInv: the work of exit and of one pass of wait under ptable.lock is one step.
- LazyAlloc.LazyEqualsEager: frames are plentiful and present user pages accessible; `UserMemory.Process.Sbrk` and `UserMemory.Process.PageFault` say exactly when frames suffice.
- Vm.Memory.AllocUvm: a page of the range that is mapped already is excluded here; `Vm.Memory.AllocOver` covers it.
- Vm.Memory.MapPages: a range of several user pages is excluded; the source maps user pages one at a time.
- FileBlocks.FileSystem.Bmap: a block number past the first missing block is excluded; readi and writei never ask for one, and the model has no holes.
- UserMemory.Process.Sbrk: growing under the default allocator over a page that is mapped already (`Vm.Memory.AllocOver`) is excluded.
- ProcTable.Table.Alloc: the kernel stack, and giving the slot back when no stack can be had, are in `ProcLife.ForkInv`.
- Umalloc.Allocator.Malloc: nothing is stated of calls after one that returned a block outside memory; a growth whose last page `allocuvm` strands is not modelled.
- Ide.Driver.Submit: one device, without errors; a process that iderw puts to sleep is in `asleep` until the interrupt for its request.
- ShellParser.Parser.Executing: redirections wrap the command as values; the source updates the argument vector of the inner node while the wrapped one is already built.
