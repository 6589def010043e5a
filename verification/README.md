# Proofs about an xv6 kernel with demand paging

A Dafny model of the parts of this xv6 (RISC-V) system whose correctness is hardest to see
from the code, with proofs for all inputs, all runs and all interleavings. Code that works in
place is modelled by classes and loops and proved against specification functions; protocols
that several processes or a device take part in are step machines, and their theorems hold in
every reachable state.

| files | subject |
|---|---|
| `RedoLog`, `LogAdmission` | the crash-safe log: a crash may fall between any two disk writes, any number of times |
| `BufferCache`, `CacheRecency` | the LRU list and the transparency of the cache |
| `LoggedCache`, `StarvedLog` | the log on top of the cache, as one system |
| `Replacement`, `Paging`, `PagingProofs`, `PagingRuns`, `PageLoss`, `LostPage`, `PolicyEquivalence`, `FaultMeaning`, `PagingCode` | page faults, FIFO and Second Chance, swap |
| `Bits`, `SetFacts`, `FsModel`, `FsCode`, `Mkfs` | block ownership and file contents, from the image on |
| `Umalloc` | the user-level allocator |
| `PageTable`, `FreePageTable`, `PageTableCode`, `Mmu` | Sv39 trees (section 4.4 of the RISC-V Privileged Architecture, version 20211203) and who uses each physical page |
| `Sleep`, `WaitAndExit` | sleep, wakeup, sleep-locks, exit, wait and kill |
| `Virtio` | the descriptor protocol (sections 2.6 and 5.2 of virtio v1.1) |
| `Shell`, `ShellRoundTrip`, `ShellGrammar`, `ShellCode` | the shell's parser |
| `Grep` | the regular-expression matcher |

`dafny verify dfyconfig.toml` checks everything.

Inputs that the code takes from elsewhere are parameters: the outcomes of `kalloc`, `create`
and partial file writes during paging, the stack pointer of a fault, whether `sbrk` has memory
and where, the status the disk reports, the order in which processes, the scheduler and the disk
act. A panic or a failed assertion is a result value, or a step that is not enabled. The 16-bit
ring indices, the 32-bit offsets of `readi` and `writei`, the `int` that `sbrk` receives and the
little-endian block numbers of indirect blocks are modelled with their widths.

## What the proofs found

* A page that `swap_in` maps is tracked as clean although it is writable (`vm.c:578`, `vm.c:884`),
  so its next eviction discards what was written. `EvictKeepsContentsIff` gives the exact
  condition on the victim, `SwappedInPageIsUnsafe` shows that every such page violates it,
  `WrittenPageIsLost` is a whole run that loses one, and `NothingLostIff` shows that a run loses
  nothing exactly when no such page is evicted again; `RunRefinesFlatMemory` covers everything else. `vmfault` returns the
  virtual address on this path (`vm.c:580`), so results are stated over the page table.
* Second Chance chooses the same victims as FIFO, because nothing sets a reference bit when a
  page is used again: `SecondChanceIsFifo`, for every run in which each dirty victim can be
  swapped out (`EvictSucceedsIff`, `RunFitsIff`). After an eviction that fails the two differ
  exactly as `FailedEvictionSeparates` says.
* `NBUF` equals `LOGBLOCKS`, so a transaction that fills the log pins every buffer and `bget`
  panics for the log block `write_log` asks for: `CommitStarvesReached`; exactly then, if no process
  holds a buffer: `CommitStarves`; and never while operations add fewer than MAXOPBLOCKS blocks:
  `SmallOpsNeverStarve` (`ChunkFitsOperation` gives 7). `Commit` and `EndOp` return this panic.
* `log_write` tests for a full header before it looks for the block in it, so absorbing a write
  panics on a full header: `FullHeaderPanics`, `FullHeaderReached`. Only an operation that has
  used up its share can meet this: `AdmissionIsSafe`.
* `MAXFILE` lets exactly slots 0..66 of the swap file be written, although the bitmap has 1024:
  `SwapFileIsDense`, `SwapOutSucceedsIff`.
* `sbrk` takes an `int`: when `malloc` needs 2^31 bytes or more of it, what `morecore` records is
  not what it was granted: `RecordedIsGranted`, `HugeRequestWraps`.
* `kkill` does not hold `wait_lock`, so a kill that comes after `kwait`'s test and before `sleep`
  takes the process's lock is missed, and the process sleeps killed: `KillCanBeMissed`. Exactly
  there: `KillIsSeen`, `KillInWindowIsMissed`.
* `mkfs` compares the blocks it used with the bits of a bitmap block, not with the disk size; what
  stops it on a full disk is the read of a sector past the end: `MakeImage`. It does not count
  inodes either: from file 207 on it would write them over the bitmap block.

## Model

| member | source | states |
|---|---|---|
| `RedoLog.StepRefinesAtomicDisk` | xv6/kernel/log.c:66-204 | each disk write of commit or recovery, and a crash between any two, leaves what recovery would restore unchanged, except the header write, which changes every logged block at once |
| `RedoLog.RunInv` | xv6/kernel/log.c:66-204 | every state that any run from power-on reaches satisfies the invariant, so no step meets a header that does not fit or a block outside the disk |
| `RedoLog.RunRefinesAtomicDisk` | xv6/kernel/log.c:66-204 | over every run from power-on, with any number of crashes, what recovery would restore is what the last header write committed, and an idle log has it in the home blocks |
| `RedoLog.AllOrNothing` | xv6/kernel/log.c:117-124 | in every run from power-on, from any start of a commit, through crashes in it and in its recoveries: once the log is idle again all home blocks are new or all are old; new exactly when the header write happened |
| `RedoLog.StepKeepsInv` | xv6/kernel/log.c:66-204 | buffers differ from disk only for blocks in the header; log copies and installed blocks agree with the buffers, in every phase |
| `RedoLog.Encode` | xv6/kernel/log.c:103-115 | the header block written decodes to the header that was given, for every header that fits |
| `RedoLog.BlankDiskIsGood` | xv6/mkfs/mkfs.c:110-111 | a zeroed disk has a well-formed empty log: recovery leaves it as it is |
| `RedoLog.Log.constructor` | xv6/kernel/log.c:53-63 | at boot the log is about to recover, with nothing outstanding |
| `RedoLog.Log.WriteLog` | xv6/kernel/log.c:179-192 | one log-area write for each header entry in order, leaving every home buffer as it was |
| `RedoLog.Log.FillHead` | xv6/kernel/log.c:106-112 | the loop over the entries yields the encoded header |
| `RedoLog.Log.WriteHead` | xv6/kernel/log.c:103-115 | exactly one write, of the header block, which commits or erases |
| `RedoLog.Log.InstallTrans` | xv6/kernel/log.c:66-84 | one home write for each entry in order; outside recovery no buffer changes |
| `RedoLog.Log.Commit` | xv6/kernel/log.c:194-204 | with NBUF entries it panics before it writes anything, and only then; otherwise its writes are copy, header, install, erase, in that order, after which the disk holds the buffers and the header is empty |
| `RedoLog.Log.ReadHead` | xv6/kernel/log.c:87-98 | the in-memory header becomes the one on disk |
| `RedoLog.Log.RecoverFromLog` | xv6/kernel/log.c:117-124 | every home block gets the durable contents of the disk found, and the log ends empty |
| `RedoLog.Log.BeginOp` | xv6/kernel/log.c:127-143 | an operation is admitted exactly when no commit runs and the log has room for all outstanding ones and this one |
| `RedoLog.Log.LogWrite` | xv6/kernel/log.c:215-236 | a block is added to the header once; the two panics happen exactly on a full header and outside a transaction |
| `RedoLog.Log.EndOp` | xv6/kernel/log.c:147-176 | the last operation out commits everything, any other only decrements the count; it panics exactly when a commit is running or when it starts one with every buffer pinned |
| `LogAdmission.AdmissionIsSafe` | xv6/kernel/log.c:127-236 | in every interleaving of operations: entries distinct and at most LOGBLOCKS, commit only with none outstanding, and no panic for an operation that has added fewer than MAXOPBLOCKS blocks |
| `LogAdmission.StepKeepsInv` | xv6/kernel/log.c:127-236 | reserved plus used log space never exceeds LOGBLOCKS |
| `LogAdmission.FullHeaderPanics` | xv6/kernel/log.c:221-222 | in every reachable state with an operation outstanding, log_write panics exactly on a full header, and then every operation has used its MAXOPBLOCKS |
| `LogAdmission.FullHeaderReached` | xv6/kernel/log.c:221-231 | three operations of ten blocks each lead from the empty log to that panic, for a block that is already logged |
| `BufferCache.RunInv` | xv6/kernel/bio.c:58-151 | every state that any run from binit reaches satisfies the invariant |
| `BufferCache.CacheIsTransparent` | xv6/kernel/bio.c:58-151 | in every interleaving from binit bread yields the latest contents to the lock holder, no block has two buffers, the list is a permutation of the buffers, and an unreferenced buffer holds what is on disk |
| `BufferCache.StepKeepsInv` | xv6/kernel/bio.c:58-151 | reference counts equal users plus pins, and data differ from disk only in pinned or locked buffers, after every step |
| `BufferCache.RecycledIsClean` | xv6/kernel/bio.c:77-86 | the buffer that bget recycles has no user, is not logged and holds nothing the disk lacks |
| `CacheRecency.ListIsByRecency` | xv6/kernel/bio.c:117-137 | in every run the list is ordered by when each buffer was last released by its last user, latest first |
| `CacheRecency.RecyclesLeastRecent` | xv6/kernel/bio.c:75-87 | in every run the buffer that bget recycles was released no later than any other free one |
| `BufferCache.PinnedStays` | xv6/kernel/bio.c:139-144 | from the log_write that pins a block to the bunpin of its buffer, in every interleaving, the buffer stays the block's and holds its latest contents; bget gives it to no other block |
| `BufferCache.UnpinReleases` | xv6/kernel/bio.c:146-151 | after bunpin only users count as references, and the disk has the contents, so the buffer may be recycled |
| `BufferCache.GetPanicsIff` | xv6/kernel/bio.c:58-89 | in every reachable state bget of an uncached block panics exactly when every buffer has a user or holds a logged block |
| `BufferCache.FullLogStarvesCache` | xv6/kernel/bio.c:77-88 | with no buffer in use, bget of a block that is not logged panics exactly when as many blocks are logged as there are buffers |
| `BufferCache.Bcache.constructor` | xv6/kernel/bio.c:36-53 | the linked ring holds every buffer once, all unused |
| `BufferCache.Bcache.InsertFront` | xv6/kernel/bio.c:46-52 | the four pointer writes put the buffer first in the circular list |
| `BufferCache.Bcache.Unlink` | xv6/kernel/bio.c:128-129 | the two pointer writes take exactly that buffer out of the circular list |
| `BufferCache.Bcache.ScanForBlock` | xv6/kernel/bio.c:66-73 | the forward walk finds the buffer of the block, or none has it |
| `BufferCache.Bcache.ScanForFree` | xv6/kernel/bio.c:77-87 | the backward walk finds the least recently used free buffer |
| `BufferCache.Bcache.Bget` | xv6/kernel/bio.c:58-89 | a hit adds a reference, a miss recycles the least recently used free buffer, and the panic is exactly that there is none |
| `BufferCache.Bcache.BrelseTail` | xv6/kernel/bio.c:124-136 | the last reference moves the buffer to the front, and no other reference moves it |
| `LoggedCache.StepSimulates` | xv6/kernel/log.c:66-236 | each critical section of the cache, begin_op, end_op, log_write, the buffer writes of commit and recovery, and a crash, is a step of the redo log or leaves its state alone |
| `LoggedCache.LogWriteStep` | xv6/kernel/log.c:215-236 | log_write of a held buffer is an update of the redo log, and pins exactly the blocks it adds to the header |
| `LoggedCache.WriteIsLogStep` | xv6/kernel/log.c:66-115 | a bwrite of the buffer that commit has filled from another buffer is the next disk write of the redo log |
| `LoggedCache.EndStep` | xv6/kernel/log.c:147-176 | the last end_op starts commit with no changed buffer outside the log |
| `LoggedCache.RunRefinesLog` | xv6/kernel/log.c:66-236 | every run of the log on top of the cache is a run of the redo log, state by state |
| `LoggedCache.CrashAtomic` | xv6/kernel/log.c:66-204 | from any start of commit, through any interleaving, eviction, crash and interrupted recovery: the idle log has on disk, for all home blocks, what bread yielded when commit started, or for all what the disk held then |
| `LoggedCache.CacheCommitsDurably` | xv6/kernel/log.c:66-204 | over every run, what recovery would restore is what bread yielded at the last header write |
| `LoggedCache.CommitProceeds` | xv6/kernel/log.c:66-115 | once the committer holds the buffers it needs, its next buffer fill and disk write can happen |
| `LoggedCache.CommitStarves` | xv6/kernel/log.c:179-192 | with no buffer in use, the bread of a log block in write_log panics exactly when the header has as many entries as there are buffers |
| `StarvedLog.CommitStarvesReached` | xv6/kernel/param.h:10-11 | NBUF is LOGBLOCKS: from power-on, recovery and three admitted operations of MAXOPBLOCKS blocks each lead to a commit whose first bread panics although no process uses a buffer |
| `StarvedLog.SmallOpsNeverStarve` | xv6/kernel/log.c:127-204 | in every run whose operations each add fewer than MAXOPBLOCKS blocks, commit starts with fewer than NBUF entries, and with no buffer in use its breads find one |
| `Replacement.ClockPicks` | xv6/kernel/vm.c:1006-1072 | from any hand and bits with some page in memory, two passes suffice; the victim is the first unmapped or unreferenced page in circular order, or the first in memory if all are referenced; exactly the bits passed are cleared |
| `Replacement.SecondChanceMeans` | xv6/kernel/vm.c:1006-1072 | a page used since the hand last passed is spared while there is one that was not or that is no longer mapped; each page passed loses its bit and no other entry changes |
| `Replacement.SweepSkips` | xv6/kernel/vm.c:1017-1046 | a sweep over k referenced pages clears their bits and goes on from the next |
| `Replacement.HandFollowsVictim` | xv6/kernel/vm.c:1066-1143 | after the entry is removed the hand is in range and on the page that followed the victim |
| `Replacement.AlignedPoliciesAgree` | xv6/kernel/vm.c:946-1073 | in an age-ordered tracker with bits 0..01..1 and the hand at 0, FIFO and Second Chance both take entry 0 |
| `Replacement.AlignedStays` | xv6/kernel/vm.c:1006-1073 | and selecting it leaves such a tracker, but for bits |
| `PolicyEquivalence.EvictAligned` | xv6/kernel/vm.c:1077-1146 | and removing it leaves such a tracker with the hand at 0 again, unless the eviction fails |
| `PagingProofs.SwapFileIsDense` | xv6/kernel/vm.c:1225-1320 | the lowest free slot never starts past the end of the swap file, no used slot reads short, and at most 67 slots are ever in use |
| `PagingProofs.SwapOutSucceedsIff` | xv6/kernel/vm.c:1268-1330 | swap_out succeeds exactly when a swap file can be had, the slot lies below MAXFILE and the file system writes the whole page |
| `PagingProofs.SwapOutEffect` | xv6/kernel/vm.c:1268-1330 | on success the slot holds the page, the bitmap bit, map entry and count are set together; on failure none is |
| `PagingProofs.SwapOutKeepsSlots` | xv6/kernel/vm.c:1268-1330 | no other slot changes its page or its bytes |
| `PagingProofs.EvictKeepsInv` | xv6/kernel/vm.c:1077-1146 | tracked pages stay distinct, mapped and within the limit; bitmap, swap map and count agree; no page is both mapped and swapped |
| `PagingProofs.EvictHolds` | xv6/kernel/vm.c:1077-1146 | an eviction that may discard its victim changes the contents of no page |
| `PagingProofs.EvictKeepsContentsIff` | xv6/kernel/vm.c:1077-1146 | evicting a page keeps whatever the process may have written to it exactly when it is tracked dirty or is not mapped writable |
| `PagingProofs.AddResidentKeeps` | xv6/kernel/vm.c:866-925 | adding a page keeps the invariant, and the page added is not its own victim |
| `PagingProofs.TakePageKeepsSlot` | xv6/kernel/vm.c:1336-1387 | the eviction inside swap_in does not reuse or change the slot being read |
| `PagingProofs.SlotOfIsItsSlot` | xv6/kernel/vm.c:559-566 | the scan of the swap map finds the page exactly when it is swapped out, at the slot that holds it |
| `PagingProofs.SwapInKeeps` | xv6/kernel/vm.c:1336-1387 | on success the page is mapped with the bytes of its slot, the slot is free, and the page not yet tracked |
| `PagingProofs.NotSwappedOutByEvict` | xv6/kernel/vm.c:1077-1146 | evicting another page does not swap out the page being faulted in |
| `PagingProofs.FaultRefines` | xv6/kernel/vm.c:531-743 | a successful fault maps the page with the bytes a memory that never evicts would hold, unless that page was lost; what those bytes are is in FaultLoadsExecutable, FaultZeroFills and FaultSwapsIn |
| `FaultMeaning.FaultLoadsExecutable` | xv6/kernel/vm.c:588-690 | a page of an executable segment: each byte is the file byte at the segment offset plus its distance from the segment, up to filesz, and zero from there on; writable exactly if the segment is |
| `FaultMeaning.FaultZeroFills` | xv6/kernel/vm.c:692-743 | a page outside every segment is mapped writable with zeros |
| `FaultMeaning.FaultSwapsIn` | xv6/kernel/vm.c:560-586 | a page in swap gets exactly the bytes of its slot, and the slot is free again |
| `FaultMeaning.FaultSucceedsIff` | xv6/kernel/vm.c:531-743 | a fault succeeds exactly when the page is below MAXVA and not mapped, a physical page can be had, by kalloc or by an eviction that fits, and mapped, and the page has a source: swap, a segment whose file part can be read in full, or zeros for an address between the stack pointer and the process size |
| `FaultMeaning.AddResidentTracks` | xv6/kernel/vm.c:866-925 | a page not yet tracked is tracked last, as the newest and clean, unless the tracker is full and no victim can be evicted; exactly then the process is killed |
| `PagingRuns.RunRefinesFlatMemory` | xv6/kernel/vm.c:531-1387 | over every run of faults, stores and evictions, under either policy, every page that was never discarded holds the flat contents, and at most 67 pages are swapped |
| `PagingRuns.FreshIsGood` | xv6/kernel/proc.c:109-190 | the state that allocproc leaves satisfies the invariant |
| `PagingRuns.OnlySwappedInPagesAreLost` | xv6/kernel/vm.c:578-580 | only pages that swap_in once mapped are ever lost |
| `PageLoss.NothingLostIff` | xv6/kernel/vm.c:531-1387 | a run loses no page exactly when no page that came back from swap is evicted again, and then every page holds the flat contents |
| `PageLoss.FreshLosesNothingIff` | xv6/kernel/vm.c:531-1387 | in particular every run from a new process |
| `PagingRuns.SwappedInPageIsUnsafe` | xv6/kernel/vm.c:578-580 | every page that comes back from swap is tracked clean though writable, so its next eviction discards it |
| `LostPage.WrittenPageIsLost` | xv6/kernel/vm.c:531-1387 | a run from a new process, with every allocation and write succeeding, after which what the process wrote to a page is nowhere and the next fault maps zeros |
| `PolicyEquivalence.EvictSucceedsIff` | xv6/kernel/vm.c:1077-1146 | evict_page succeeds exactly when the page is clean, or a swap file can be had, one of slots 0..66 is free and the whole page is written |
| `PolicyEquivalence.RunFitsIff` | xv6/kernel/vm.c:531-1146 | some eviction of a run fails exactly when some selected victim is dirty and cannot be swapped out so |
| `PolicyEquivalence.SecondChanceIsFifo` | xv6/kernel/vm.c:866-1146 | over every run in which each dirty victim finds a swap file, a slot of 0..66 and room for the whole page, the two policies keep the same pages, the tracker age-ordered and the hand at 0, and pick the same victim |
| `PolicyEquivalence.FailedEvictionSeparates` | xv6/kernel/vm.c:1077-1146 | after a failed eviction with two pages or more, FIFO takes the oldest, and Second Chance the second oldest exactly when the oldest page's bit was set or the second's clear |
| `PolicyEquivalence.PickOldest` | xv6/kernel/vm.c:946-1073 | either policy picks entry 0 of an aligned tracker and leaves it aligned |
| `PagingCode.Process.constructor` | xv6/kernel/proc.c:109-190 | the empty tracker, bitmap and swap map |
| `PagingCode.Process.AllocSwapSlot` | xv6/kernel/vm.c:1225-1245 | the word-and-bit scan sets the lowest clear bit, or returns -1 when all are set |
| `PagingCode.Process.FreeSwapSlot` | xv6/kernel/vm.c:1248-1262 | exactly that bit is cleared |
| `PagingCode.Process.CreateSwapfile` | xv6/kernel/vm.c:1149-1197 | an open swap file with every slot free |
| `PagingCode.Process.FindVictimFifo` | xv6/kernel/vm.c:946-976 | the in-memory entry with the smallest sequence number |
| `PagingCode.Process.ClockLoop` | xv6/kernel/vm.c:1013-1046 | the sweep from the hand: victim, cleared bits and hand |
| `PagingCode.Process.FindVictimSecondChance` | xv6/kernel/vm.c:985-1073 | the victim, bits and hand of the clock policy; the fallback scan after the loop is never reached |
| `PagingCode.Process.SwapOutPage` | xv6/kernel/vm.c:1268-1330 | the specified swap-out on the arrays |
| `PagingCode.Process.RemoveEntry` | xv6/kernel/vm.c:1125-1128 | the shift removes one entry and keeps the order of the rest |
| `PagingCode.Process.AdjustHand` | xv6/kernel/vm.c:1130-1143 | the hand after the removal of an entry |
| `PagingCode.Process.EvictPage` | xv6/kernel/vm.c:1077-1146 | the specified eviction, with every early return |
| `PagingCode.Process.AddResidentPage` | xv6/kernel/vm.c:866-925 | the specified append, with the eviction on a full tracker |
| `PagingCode.Process.MarkPageDirty` | xv6/kernel/vm.c:929-942 | the dirty flag of the one entry for the page |
| `PagingCode.Process.SwapInPage` | xv6/kernel/vm.c:1336-1387 | the specified swap-in |
| `PagingCode.Process.FindSwapSlot` | xv6/kernel/vm.c:559-566 | the slot the swap map gives for the page, or none |
| `PagingCode.Process.Vmfault` | xv6/kernel/vm.c:531-743 | the fault handler equals its specification, keeps the paging invariant, and maps the flat contents of a page that was not lost |
| `FsModel.MarkIs` | xv6/kernel/fs.c:66-106 | setting or clearing one bitmap bit changes no other bit |
| `FsModel.AllocKeepsInv` | xv6/kernel/fs.c:66-89 | taking a free block changes no slot of any inode |
| `FsModel.StoreAddr` | xv6/kernel/fs.c:411-429 | storing the block in an empty direct or indirect slot gives it exactly one owner |
| `FsModel.StoreEntry` | xv6/kernel/fs.c:430-438 | storing it in an empty entry of the indirect block gives it exactly one owner |
| `FsModel.FreeKeepsInv` | xv6/kernel/fs.c:92-106 | clearing the bit of an owned block leaves every other block as it was |
| `FsModel.OwnedIsInUse` | xv6/kernel/fs.c:101-102 | a block in some slot has its bit set, so freeing it cannot panic |
| `FsModel.OthersKeepContent` | xv6/kernel/fs.c:494-562 | a call on one inode changes the contents of no other file |
| `FsModel.WriteTurn` | xv6/kernel/fs.c:539-551 | one turn of the write loop splices exactly its bytes into the contents |
| `FsCode.Volume.FindFreeBlock` | xv6/kernel/fs.c:73-86 | the lowest clear bit over all bitmap blocks, or none is clear |
| `FsCode.Volume.Balloc` | xv6/kernel/fs.c:66-89 | the lowest free block, zeroed and marked; 0 exactly on a full disk |
| `FsCode.Volume.Bfree` | xv6/kernel/fs.c:92-106 | clears that bit; refuses exactly a free block |
| `FsCode.Volume.Bmap` | xv6/kernel/fs.c:405-444 | the block of a position, allocated on demand with its indirect block; no slot that was filled changes; 0 only on a full disk |
| `FsCode.Volume.Readi` | xv6/kernel/fs.c:494-519 | of a file without holes, exactly the slice clipped to its end, across blocks and the indirect boundary, changing nothing |
| `FsCode.Volume.PatchBlock` | xv6/kernel/fs.c:543-550 | one turn of the write loop: exactly its bytes go into the block, other files and filled slots stay |
| `FsCode.Volume.Writei` | xv6/kernel/fs.c:528-562 | contents become c[..off] + data[..r] + c[off+r..]; the three refusals; short only on a full disk; other files untouched; ownership kept |
| `FsCode.Volume.Filewrite` | xv6/kernel/file.c:148-171 | a write in pieces has the effect of one write; -1 unless complete, which is only when the offset is past the end, the next piece exceeds the largest file, or every block is in use; no piece logs more than 7 blocks |
| `FsCode.Volume.FreeOwned` | xv6/kernel/fs.c:92-106 | freeing a block that a slot holds never reaches the panic |
| `FsCode.Volume.Itrunc` | xv6/kernel/fs.c:448-476 | every block of the file and no other is freed, without the panic, and the file is empty |
| `FsCode.Volume.TruncDirect` | xv6/kernel/fs.c:455-460 | the direct slots are freed and cleared |
| `FsCode.Volume.TruncIndirect` | xv6/kernel/fs.c:462-472 | the entries and the indirect block are freed, each once |
| `FsCode.ChunkFitsOperation` | xv6/kernel/file.c:149-158 | a piece of at most 3072 bytes, or an aligned page as swap_out writes, logs at most 7 blocks when one bitmap block covers the disk |
| `Mkfs.Image.constructor` | xv6/mkfs/mkfs.c:92-116 | the blank image satisfies the ownership invariant once its metadata blocks are marked |
| `Mkfs.Image.Ialloc` | xv6/mkfs/mkfs.c:222-234 | the next inode, empty; or it lies past the inode blocks |
| `Mkfs.Image.Append` | xv6/mkfs/mkfs.c:254-296 | the file grows by exactly the bytes, other files stay, ownership is kept; or the assertion on MAXFILE or the read past the disk stops it |
| `Mkfs.Image.Install` | xv6/mkfs/mkfs.c:130-163 | a file copied in pieces has its contents, and its entry is appended to the root |
| `Mkfs.Image.RoundRoot` | xv6/mkfs/mkfs.c:165-170 | only the root size changes |
| `Mkfs.Image.Balloc` | xv6/mkfs/mkfs.c:236-250 | the bitmap has exactly the first freeblock bits set, which completes the ownership invariant |
| `Mkfs.Image.Complete` | xv6/mkfs/mkfs.c:165-172 | rounding the root and writing the bitmap keep every file |
| `Mkfs.MakeImage` | xv6/mkfs/mkfs.c:69-175 | a finished image satisfies the ownership invariant and holds every file; the root has no hole unless its size was a multiple of a block; otherwise a file is too big, the disk or the bitmap block too small, or there are more files than inodes |
| `Umalloc.FreedKeeps` | xv6/user/umalloc.c:24-44 | free keeps the ring ordered, without overlap or touching, and disjoint from live blocks; every unit stays in exactly one block |
| `Umalloc.CarvedKeeps` | xv6/user/umalloc.c:73-83 | taking a block keeps that invariant; the new block is no part of another, and the units are the same |
| `Umalloc.GrownKeeps` | xv6/user/umalloc.c:46-61 | fresh memory from sbrk adds exactly its units |
| `Umalloc.PlaceIs` | xv6/user/umalloc.c:30-32 | free's two loop tests together hold at exactly one place of the ring |
| `Umalloc.FreedLinked` | xv6/user/umalloc.c:33-43 | the pointers free writes are the circular list of the new ring |
| `Umalloc.FreedIsBig` | xv6/user/umalloc.c:46-61 | after morecore some free block is large enough |
| `Umalloc.Allocator.FindPlace` | xv6/user/umalloc.c:29-32 | the search ends, at the block after which the freed one belongs |
| `Umalloc.Allocator.Free` | xv6/user/umalloc.c:24-44 | the block is inserted in address order and joined with what it touches; other live blocks and all units unchanged |
| `Umalloc.RecordedIsGranted` | xv6/user/ulib.c:152-155 | the units morecore records are those sbrk has granted exactly when their byte count is below 2^31, since sbrk takes an int |
| `Umalloc.HugeRequestWraps` | xv6/user/umalloc.c:54 | malloc(0xFFFFFFFF) asks for 2^28+1 units, for which sbrk receives 16 |
| `Umalloc.Allocator.Morecore` | xv6/user/umalloc.c:46-61 | at least 4096 units join the ring, or nothing changes when sbrk refuses; they are the units granted exactly below 2^31 bytes |
| `Umalloc.Allocator.Take` | xv6/user/umalloc.c:73-83 | an exact block leaves the ring, a larger one gives its tail |
| `Umalloc.Allocator.Malloc` | xv6/user/umalloc.c:63-90 | for every request: a new live block of exactly the units asked for, by first fit from freep; fails exactly when nothing fits and sbrk refuses; terminates after at most one morecore; the units stay those granted unless sbrk was called for 2^31 bytes or more |
| `Sleep.NoLostWakeup` | xv6/kernel/proc.c:603-648 | in every interleaving: an unlocked sleep-lock with a free spinlock has no sleeper, a parent asleep in kwait with wait_lock free has no zombie child, and a sleep-lock has at most one holder, the one in its pid field |
| `Sleep.StepKeepsInv` | xv6/kernel/proc.c:371-476 | every step of sleep, wakeup, exit, wait, kill, fork and the sleep-locks keeps: whoever is committed to sleep has a wakeup coming if what it waits for is due |
| `Sleep.NewlyDue` | xv6/kernel/proc.c:371-427 | what a sleeper waits for comes about only under its condition lock: by releasesleep, an exiting child, or a reparented zombie |
| `Sleep.SleeperKept` | xv6/kernel/proc.c:634-648 | a sleeper that a step leaves asleep still has its wakeup ahead |
| `Sleep.EntryWoken` | xv6/kernel/proc.c:638-646 | the entry wakeup has passed is not asleep on its channel |
| `WaitAndExit.WaitOutcome` | xv6/kernel/proc.c:431-476 | in every interleaving kwait goes to its return only by reaping one zombie child and nothing else, when copyout fails for one, or with no zombie child when it has no child or is killed; it sleeps only on its own channel, with a child, none a zombie, and not killed |
| `WaitAndExit.CallOutcome` | xv6/kernel/proc.c:371-476 | a call that ends has done its work: acquiresleep holds the lock, releasesleep has unlocked it and left no sleeper, kexit has left a zombie without children, kwait has returned as above |
| `WaitAndExit.NoOrphans` | xv6/kernel/proc.c:371-382 | in every state of every run each process in use but init has a parent that is in use and no zombie, and descends from init |
| `WaitAndExit.StepKeepsFamily` | xv6/kernel/proc.c:309-476 | every step keeps: havekids is right so far, a process past reparent has no child, and parents form a tree below init |
| `WaitAndExit.NoDeadlock` | xv6/kernel/proc.c:371-668 | as long as some process is runnable or inside one of these calls, some process can take its next step |
| `WaitAndExit.WokenBy` | xv6/kernel/proc.c:634-648 | in every run a sleeper becomes runnable only by kkill or by a wakeup of the very channel it sleeps on |
| `WaitAndExit.KillWakes` | xv6/kernel/proc.c:653-672 | the target is killed, and runnable if it slept on whatever channel; nothing else changes |
| `WaitAndExit.KillIsSeen` | xv6/kernel/proc.c:653-672 | as long as no kill of a process falls between its test in kwait and the start of sleep, it is never asleep there while killed |
| `WaitAndExit.KillInWindowIsMissed` | xv6/kernel/proc.c:468-474 | a kill that falls there is missed: the process goes to sleep killed |
| `WaitAndExit.KillCanBeMissed` | xv6/kernel/proc.c:468-474 | a whole run from boot in which this happens |
| `Virtio.RunIsSafe` | xv6/kernel/virtio_disk.c:156-327 | over every run of requests, completions in any order and interrupts: the partition, the rings and the buffer flags hold and at most NUM/3 requests are in flight |
| `Virtio.StepKeepsInv` | xv6/kernel/virtio_disk.c:215-327 | each driver section and device step keeps them; header and status descriptors have the right direction, the data descriptor is writable by the device exactly for a read, and the header names direction and sector |
| `Virtio.InFlightBound` | xv6/kernel/virtio_disk.c:201-213 | chains of three disjoint descriptors: at most NUM/3 |
| `Virtio.RingPush` | xv6/kernel/virtio_disk.c:272-277 | an entry appended at the 16-bit index lands on a slot no pending entry uses, also when the index wraps |
| `Virtio.RingPop` | xv6/kernel/virtio_disk.c:312-324 | the entry at the reader index is the oldest pending one, also when the index wraps |
| `Virtio.ReapKeeps` | xv6/kernel/virtio_disk.c:312-324 | the status tested is the one the device reported for that request, whatever it is; on success the flag cleared is that of the buffer which issued it |
| `Virtio.RequestIsServed` | xv6/kernel/virtio_disk.c:216-284 | in every run, when the device reports success for a request: a write has put on its block what the buffer held when the request was made, a read has put the block in the buffer, and no other block or buffer changes; the device goes by the descriptors and the header alone |
| `Virtio.ChainIsJob` | xv6/kernel/virtio_disk.c:236-264 | the device reads off a chain the direction, sector and buffer that the driver asked for |
| `Virtio.BlocksDisjointIff` | xv6/kernel/virtio_disk.c:218 | the 32-bit sector numbers of two blocks are disjoint exactly when the blocks differ below bit 31 |
| `Virtio.Disk.AllocDesc` | xv6/kernel/virtio_disk.c:156-166 | the lowest free descriptor, or -1 when none is free |
| `Virtio.Disk.FreeDesc` | xv6/kernel/virtio_disk.c:169-182 | frees and clears one descriptor; the panics are exactly out of range and already free |
| `Virtio.Disk.Alloc3Desc` | xv6/kernel/virtio_disk.c:201-213 | three distinct free descriptors, or all given back when fewer than three are free |
| `Virtio.Disk.StartRequest` | xv6/kernel/virtio_disk.c:215-281 | header descriptor readable by the device with the request type and the first sector, data descriptor writable exactly for a read, status descriptor writable; info entry, flag and avail entry; without descriptors nothing in use changes |
| `Virtio.Disk.Intr` | xv6/kernel/virtio_disk.c:294-327 | requests in the used ring are marked done in order, no other, up to the first that failed; the panic is exactly that one failed |
| `Virtio.Disk.FreeChain` | xv6/kernel/virtio_disk.c:185-197 | follows the chain to its end and frees its three descriptors without a panic |
| `Virtio.Disk.FinishRequest` | xv6/kernel/virtio_disk.c:288-289 | the chain of a finished request returns to the free descriptors |
| `PageTable.Pte` | xv6/kernel/vm.c:186 | a PTE decodes to the page and flags it was made of |
| `PageTable.SlotsDistinct` | xv6/kernel/vm.c:116-134 | different pages below MAXVA, and different trees, have different leaf PTEs |
| `PageTable.TableAddedKeeps` | xv6/kernel/vm.c:126-131 | a new table changes no mapping and gives one free page its only use |
| `PageTable.MapKeeps` | xv6/kernel/vm.c:182-187 | storing a leaf changes that mapping only, and the page mapped has that one use |
| `PageTable.UnmapKeeps` | xv6/kernel/vm.c:265-276 | clearing a leaf changes that mapping only |
| `Mmu.HardwareSeesLeaf` | xv6/kernel/riscv.h:358-374 | the processor's three-level walk over physical memory from a root is the map that the tree stands for, for every address below MAXVA |
| `Mmu.GrownReadsZero` | xv6/kernel/vm.c:281-305 | after uvmalloc a user load of any new byte reads 0, and a store is permitted exactly if xperm says so |
| `Mmu.CopyReadsSame` | xv6/kernel/vm.c:368-396 | after uvmcopy the child loads what the parent loads, byte by byte, and may store where the parent may |
| `FreePageTable.RemovedKeeps` | xv6/kernel/vm.c:329-347 | once a tree is freed the partition holds for the rest, and every other tree maps what it did |
| `PageTableCode.Vm.constructor` | xv6/kernel/kalloc.c:33-40 | every page in range is free, once |
| `PageTableCode.Vm.Kalloc` | xv6/kernel/kalloc.c:68-82 | the front of the free list; 0 exactly when it is empty |
| `PageTableCode.Vm.Kfree` | xv6/kernel/kalloc.c:46-63 | the page goes to the front; the panic is exactly out of range |
| `PageTableCode.Vm.Walk` | xv6/kernel/vm.c:116-134 | the leaf table of the page, made on demand; no mapping changes; with alloc 0 exactly when fewer pages are free than tables are missing, else that many are used |
| `PageTableCode.Vm.Walkaddr` | xv6/kernel/vm.c:139-157 | the page mapped for the user, or 0 |
| `PageTableCode.Vm.Mappages` | xv6/kernel/vm.c:164-193 | exactly the mappings of the run, none of which existed, up to the first failure; out of memory, or the remap panic at a page that is mapped |
| `PageTableCode.Vm.Uvmunmap` | xv6/kernel/vm.c:256-277 | exactly the mappings of the range go; with do_free their pages are freed, each once |
| `PageTableCode.Vm.Uvmalloc` | xv6/kernel/vm.c:281-305 | zero pages with the right flags for the range, none of which was mapped; 0 only with fewer than three free pages for each new one, and then every mapping is as before and no page is lost; the panic only if the range holds a mapped page |
| `PageTableCode.Vm.Uvmdealloc` | xv6/kernel/vm.c:311-323 | the pages between the two sizes go |
| `PageTableCode.Vm.Uvmcopy` | xv6/kernel/vm.c:368-396 | the child maps the parent's pages with equal flags and contents on pages of its own, and elsewhere is as before; without memory, which needs fewer than three free pages for each page walked, a child that had none is as before; the panic at a page that both have |
| `PageTableCode.Vm.Uvmcreate` | xv6/kernel/vm.c:197-206 | an empty tree on a fresh page; 0 exactly when no page is free |
| `PageTableCode.Vm.AllocTrapframe` | xv6/kernel/proc.c:128-133 | a free page becomes the kernel's; no mapping changes |
| `PageTableCode.Vm.ProcPagetable` | xv6/kernel/proc.c:228-258 | a new tree that maps exactly the trampoline and the trapframe, other trees unchanged; it fails only with fewer than five free pages, and then every page has the use it had |
| `PageTableCode.BornAndFreed` | xv6/kernel/proc.c:228-268 | making such a tree and freeing it gives every page the use it had |
| `PageTableCode.Vm.Freewalk` | xv6/kernel/vm.c:329-347 | every table and data page of the subtree returns to the free list once, and no other page is touched |
| `PageTableCode.Vm.Uvmfree` | xv6/kernel/vm.c:351-360 | the whole tree |
| `PageTableCode.Vm.ProcFreepagetable` | xv6/kernel/proc.c:262-268 | every data and table page of the process is freed once, the trampoline and trapframe pages are not, other trees unchanged |
| `ShellRoundTrip.PrintParses` | xv6/user/sh.c:333-452 | every command tree, printed with parentheses, parses back to itself |
| `ShellRoundTrip.SimpleCommandParses` | xv6/user/sh.c:421-452 | words and redirections in any order parse to the words as arguments, wrapped in the redirections |
| `ShellRoundTrip.RedirStep` | xv6/user/sh.c:380-403 | an operator and a file name parse to that redirection |
| `ShellRoundTrip.BlockOf` | xv6/user/sh.c:405-419 | a parenthesised command parses to that command |
| `ShellGrammar.ParsesIff` | xv6/user/sh.c:333-452 | the parser accepts exactly the lines of the grammar line ::= back [";" line], back ::= pipe "&"*, pipe ::= exec ["|" pipe], exec ::= words and redirections with fewer than MAXARGS words, or "(" line ")" redirections, and builds the command the grammar gives |
| `ShellGrammar.GrammarParses` | xv6/user/sh.c:333-452 | every line of the grammar parses to its command, whatever white space is between the tokens |
| `ShellGrammar.LineGrammar` | xv6/user/sh.c:350-365 | what parseline accepts is a line of the grammar with that value |
| `ShellGrammar.LeastParensParses` | xv6/user/sh.c:333-452 | every command tree, printed with parentheses only where the grammar needs them and any white space, parses back to itself |
| `ShellGrammar.FewestParens` | xv6/user/sh.c:350-452 | no line for the same command has fewer parentheses than that printing |
| `ShellGrammar.FlatNeedsNoParens` | xv6/user/sh.c:350-378 | that printing has no parentheses exactly for lists of pipelines of simple commands, each with any number of & after it |
| `ShellCode.GetToken` | xv6/user/sh.c:271-314 | the three loops find the token and the cursor of the specification |
| `ShellCode.PeekAt` | xv6/user/sh.c:316-326 | the cursor past white space, and whether a given symbol is there |
| `ShellCode.ParseRedirs` | xv6/user/sh.c:380-403 | equals the recursive grammar |
| `ShellCode.ParseExecCmd` | xv6/user/sh.c:421-452 | equals the recursive grammar, with its three panics; terminates; ParsesIff says what it accepts |
| `ShellCode.ParseBlockCmd` | xv6/user/sh.c:405-419 | equals the recursive grammar |
| `ShellCode.ParsePipeCmd` | xv6/user/sh.c:367-378 | equals the recursive grammar |
| `ShellCode.ParseLineCmd` | xv6/user/sh.c:350-365 | equals the recursive grammar |
| `ShellCode.ParseCommand` | xv6/user/sh.c:333-348 | the parse of the C string, the leftovers panic, and a buffer in which every word reads back as parsed |
| `ShellCode.Nulterminate` | xv6/user/sh.c:455-499 | a NUL at the end of every token of the tree and nowhere else |
| `ShellCode.ReadsBack` | xv6/user/sh.c:455-499 | no NUL falls inside a token, so each argument and file name is the C string that was parsed |
| `ShellCode.LineTokens` | xv6/user/sh.c:350-365 | every span of a parsed command is a maximal token |
| `Grep.Match` | xv6/user/grep.c:72-82 | true exactly when the pattern is found: at the start after ^, else at some position |
| `Grep.MatchHere` | xv6/user/grep.c:85-96 | true exactly when a prefix of the text is in the language of the pattern, the whole text with $ |
| `Grep.MatchStar` | xv6/user/grep.c:99-106 | true exactly when some number of repetitions is followed by a match of the rest |
| `Grep.DescribesIs` | xv6/user/grep.c:85-106 | the left-to-right reading of a pattern agrees with the language of its items |

## Left out

- exec, fork and shrinking `sbrk` in relation to the resident tracker and the swap map, which they neither reset nor copy; paging runs start at `allocproc`.
- `close_swapfile` and the paging clean-up in `freeproc`, which act on the calling process.
- The heap case at the end of `vmfault`, which is not reachable: the page would have to be both at or above and below the process size.
- Page faults inside an open file-system transaction, and a user copy that fails half way through `readi` or `writei`.
- The allocation of table pages inside `vmfault`: in the paging modules a page table is a map from pages to contents; its tree is the subject of `PageTable`.
- Page sequence numbers and process ids are unbounded.
- Umalloc.Allocator.Malloc: what follows once `sbrk` was asked for 2^31 bytes or more. When it receives a negative number the process shrinks and the store into the new header faults, where the contract still returns a block; and a later `sbrk` may answer with an address below recorded units, which the contract excludes.
- Umalloc.Allocator.Morecore: the same.
- RedoLog.Log.Commit: assumes that no other process holds a buffer while it runs; with holders the condition for the panic is that of `GetPanicsIff`.
- LoggedCache.StepSimulates: one store of the committer into a buffer stands for its whole `memmove` or header loop.
- PageTableCode.Vm.Mappages: the alignment panics, as sizes and addresses are counted in pages; flags without any of R, W and X, which make the entry a table pointer.
- PageTableCode.Vm.Uvmunmap: freeing pages at or above the trapframe, which belong to the kernel.
- `freeproc`, which frees the trapframe page before it unmaps it; the kernel's own page table; TLB flushes.
- Sleep.StepKeepsInv: sections under one spinlock are one step, and `fork` is two steps.
- Virtio.RequestIsServed: a request that fails moves nothing in the model; a real device may have moved part of it.
- WaitAndExit.NoDeadlock: that the scheduler is fair, so that a step that can be taken is.
- Virtio.Disk.Intr: takes the used ring as it finds it; completions that arrive while it loops are covered by the `Reap` steps of the machine.
- Mkfs.Image.Ialloc: what `mkfs` goes on to do when it has written an inode over the bitmap block.
- Mkfs.MakeImage: when the root directory's size is a multiple of a block the rounding leaves a hole in it; the inode is written back once per block here, not once per append.
- The shell's trees are values: `parseexec` fills its node through a second pointer, the model replaces it.
- Directories, path names, link counts and inode reference counts; the file table, pipes and the console.
- Spinlocks, interrupt disabling, traps, UART, PLIC and boot code.
- System-call argument fetching, formatted output and the other user programs.
