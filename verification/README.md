# Verified models of the kernel and its user-space allocator

Dafny models of the hardest parts of this RISC-V kernel, each with what it promises proved over every
input, every run or every reachable state:

- the write-ahead log over the buffer cache (`AtomicStore`, `LogMachine`, `LogInvariant`,
  `LogRefinement`, `LogTheorems`, `LogRuns`, `LogCode`) and the cache with its circular list (`BufferCache`);
- blocks, inodes and file contents (`FsBytes`, `FsModel`, `FsFiles`, `FsCode`, `FileWrite`,
  `WriteWitness`), their layout on disk (`FsLayout`) and what a crash leaves of a write (`FileCrash`, `CrashRuns`);
- malloc, free, calloc and realloc (`HeapModel`, `HeapFreeList`, `HeapOps`, `HeapCode`, `HeapAlloc`);
- page tables and physical pages (`PtModel`, `PtSteps`, `PtCode`, `PtUser`, `PtFree`, `PtFork`, `PtProc`,
  `PtCopy`);
- the virtio disk driver beside its device (`VirtioMachine`, `VirtioInvariant`, `VirtioTheorems`,
  `VirtioCode`);
- sleep locks (`SleepLock`), exit and wait (`ExitWait`), the scheduler (`Scheduler`);
- the regular expressions and the line filter of grep (`GrepMatch`, `GrepFilter`).

`dafny verify dfyconfig.toml` checks the whole project.

## How the models are built

Concurrent parts (the log, the virtio driver, sleep locks, exit and wait) are transition systems. A step is
a region under one spin lock, or one synchronous block write; any process may take any enabled step, so a
run is any interleaving. An invariant is proved for every step, and the theorems are about every position
of every run. The log machine is moreover refined to `AtomicStore`, a store of blocks with group commit in
which a crash drops exactly what was not committed. `LogCode` and `VirtioCode` then give the procedures as
code whose every effect is a step of the machine.

Sequential parts are classes or methods with loops over the data that the source changes: block bytes and
bitmap bytes, block headers and free links inside one flat memory, page-table pages inside physical memory,
grep's buffer. Ghost fields hold the abstract value (the owner of each disk block, the list of heap blocks,
the use of each physical page) and invariants tie it to the concrete fields.

A few large invariants are written so that the verifier looks into them only where a marker predicate
(such as `Open`, `Look` or `At`) is mentioned. The markers are always true and have no meaning of their own.

## What the proofs found

- commit runs out of buffers, and bget panics, exactly when the blocks of the transaction and the other buffers in
  use are as many as there are buffers (`LogTheorems.SlotHasBufferIff`, `LogCode.FileLog.Commit`). Readers hold
  buffers without an operation, so this happens for transactions of every size
  (`LogRuns.ReadersStallCommit`, `LogRuns.PanicsAreReached`).
- The slots of 30 blocks would reach past the log area that mkfs lays out (`LogTheorems.SlotsFitIff`), but no
  slot of such a transaction is ever written: it pins all 30 buffers
  (`LogTheorems.FullTransactionWritesNoSlot`).
- log_write panics on a full log even when it would only absorb the block, and there are runs in which it does
  (`LogTheorems.FullLogPanicsOnAbsorption`, `LogRuns.AbsorptionPanics`).
- The bound on a chunk of filewrite is reached: one chunk can log exactly MAXOPBLOCKS blocks, but only if it
  allocates the indirect block of the file (`FsCode.FileSystem.Writei`, `WriteWitness.ChunkLogsTen`).
- Each chunk of filewrite can be lost as a whole until the header write of its commit, although its operation has
  ended; nothing else can be lost (`CrashRuns.ChunkCanBeLost`, `FileCrash.CrashLeavesWholeChunks`).
- readi returns 0 bytes where off + n wraps around 32 bits (`FsCode.FileSystem.Readi`).
- malloc's 32-bit sizes are right exactly up to 2^31 - 4128 (`HeapAlloc.SizesAreRight`). Beyond that, when no
  free block is large enough, the process is killed, or for the sizes that round to 2^32 - 16 it gets less than a
  page (`HeapAlloc.RequestIsWrong`). For the 15 sizes above 2^32 - 16 the rounding wraps around and malloc gives
  less than 64 bytes (`HeapAlloc.Malloc`, `HeapAlloc.MallocTooLittle`).
- calloc gives the bytes asked for exactly when the product of its arguments does not wrap around
  (`HeapAlloc.Calloc`, `HeapAlloc.CallocTooLittle`).
- A shrinking realloc leaves two free neighbours exactly when it cuts a tail off in front of a free block
  (`HeapAlloc.Realloc`, `HeapOps.SplitPairs`).
- grep stops at the first line longer than 1022 characters: it writes all matching lines exactly when none of
  them is that line or comes after it (`GrepFilter.CompleteIff`).
- In proc_pagetable only the first of the two mappages can fail: both pages are in the same table
  (`PtFork.ProcPagetable`).

## Model

| member | source | states |
|---|---|---|
| `AtomicStore.DurableIsLastCommit` | kernel/log.c:194-204 | in every history of the specification, what is durable is what was current at the last commit, and no operation was open then |
| `AtomicStore.CurrentIsDurablePlusWrites` | kernel/log.c:207-236 | what is current is the durable state with exactly the writes since the last commit or crash replayed |
| `LogInvariant.StepKeepsInv` | kernel/log.c:66-236 | every step of every process, the committer, recovery and power failure keeps the log invariant: shape, reference counts, write-ahead rule, phase of commit, admission |
| `LogInvariant.RecycledIsUnpinned` | kernel/bio.c:58-89 | only a buffer that neither a process nor the log refers to is recycled |
| `LogInvariant.LogWriteKeepsAdmission` | kernel/log.c:215-236 | log_write within credit keeps log entries plus unspent credits within LOGBLOCKS |
| `LogInvariant.BeginKeepsAdmission` | kernel/log.c:127-143 | begin_op's test keeps log entries plus unspent credits within LOGBLOCKS |
| `LogRefinement.StepRefines` | kernel/log.c:66-236 | every step of the machine is one move of the atomic store; the header write is the commit, all other disk writes are invisible |
| `LogTheorems.RunKeepsInv` | kernel/log.c:66-236 | the invariant holds at every position of every run |
| `LogTheorems.RunRefinesStore` | kernel/log.c:66-236 | every run is a history of the atomic store |
| `LogTheorems.CrashAtomicity` | kernel/log.c:66-124 | whenever the machine runs, after any number of crashes anywhere, recovery included, every home block holds what was current at the last completed header write |
| `LogTheorems.CommitIsQuiescent` | kernel/log.c:147-176 | at a header write no operation is in progress, so none is committed in part |
| `LogTheorems.CommittedGroup` | kernel/log.c:179-204 | a commit makes durable exactly the previous durable blocks with all writes since then replayed in order |
| `LogTheorems.HomeChangesOnlyWhenListed` | kernel/log.c:66-84 | a home block on disk changes only in install_trans, when the header on disk names it |
| `LogTheorems.UnwrittenIsPinned` | kernel/bio.c:139-151 | an unlocked cached block that differs from the disk is listed exactly once, referenced, and cannot be recycled |
| `LogTheorems.CreditNeverPanics` | kernel/log.c:215-236 | an operation with credit left always finds room in the log |
| `LogTheorems.FullLogPanicsOnAbsorption` | kernel/log.c:220-234 | re-logging a listed block succeeds exactly when the log is not full; when it is full every operation has spent its credit |
| `LogTheorems.BeginWaitsForSomeone` | kernel/log.c:127-143 | begin_op waits only while an operation or a commit is in progress |
| `LogTheorems.AdmissionIsExact` | kernel/log.c:127-143 | on the machine, begin_op admits exactly when no commit runs and the log has room for MAXOPBLOCKS more entries of each open operation and the new one |
| `LogTheorems.OperationCanEnd` | kernel/log.c:147-176 | an operation that has handed over its buffers can end; the last one, and only that, starts the commit, which skips an empty transaction; nothing else changes |
| `LogTheorems.CommitIsExclusive` | kernel/log.c:147-176 | committing implies no operation outstanding; an idle log is empty and the cache shows the durable blocks |
| `LogTheorems.SlotsFitIff` | kernel/log.c:179-192 | the slots of n blocks lie in the log area exactly when n is below its size |
| `LogTheorems.SlotHasBufferIff` | kernel/bio.c:58-89 | in every state of write_log, whatever the other processes do, bget finds a buffer for the next slot exactly when the blocks of the transaction and the other buffers in use are fewer than NBUF |
| `LogTheorems.FullTransactionWritesNoSlot` | kernel/log.c:179-192 | a commit of as many blocks as there are buffers stays in front of its first slot: no copy to the log and no bget of the slot is possible, whatever the others do |
| `LogTheorems.RecoversToQuiet` | kernel/log.c:117-124 | what any crash leaves in the home blocks was current at some earlier moment at which no operation was open |
| `LogTheorems.OperationFindsRoom` | kernel/log.c:215-236 | in every run an operation that has logged fewer than MAXOPBLOCKS distinct blocks since begin_op can log one more without a panic |
| `LogInvariant.CopyNeedsBuffer` | kernel/log.c:179-192 | write_log copies only transactions smaller than the cache |
| `LogRuns.EveryListIsReached` | kernel/log.c:127-236 | for every list of at most LOGBLOCKS distinct home blocks there is a run in which three operations have logged exactly it |
| `LogRuns.EveryWriterIsReached` | kernel/log.c:127-143 | for every list of at most MAXOPBLOCKS distinct home blocks a run in which one operation, alone, has logged it |
| `LogRuns.BeginsBesideWriter` | kernel/log.c:127-143 | after any such run a second operation is admitted, and then a third if and only if nothing has been logged |
| `LogRuns.AbsorptionPanics` | kernel/log.c:220-234 | there is a run in which an operation holds a listed block, the log is full and log_write panics |
| `LogRuns.FullCommitStalls` | kernel/log.c:179-192 | there is a run in which a commit begins with a full log and bget cannot give its first slot a buffer |
| `LogRuns.EveryReadIsReached` | kernel/file.c:118-124 | beside any transaction there is a run in which processes without an operation hold all the other buffers |
| `LogRuns.ReadersStallCommit` | kernel/bio.c:58-89 | for transactions of every size there is a run in which commit begins while readers hold the other buffers, and bget cannot give its first slot a buffer |
| `LogRuns.PanicsAreReached` | kernel/log.c:179-234 | all three panics are reached from a disk of zeros in the layout of mkfs |
| `LogCode.FileLog.Bread` | kernel/bio.c:92-103 | bread as steps of the machine, whatever the other processes hold: it fails exactly when no buffer is left, and sleeps exactly when another process has locked the buffer |
| `LogCode.FileLog.Brelse` | kernel/bio.c:116-137 | brelse as steps of the machine; what the other processes hold stays |
| `LogCode.FileLog.BeginOnce` | kernel/log.c:127-143 | one turn of begin_op: admitted exactly when no commit runs and every open operation and the new one could each add MAXOPBLOCKS entries to the log as it is; otherwise nothing changes |
| `LogCode.FileLog.LeaveOp` | kernel/log.c:147-176 | end_op's decision: the last outstanding operation commits |
| `LogCode.FileLog.LogBlock` | kernel/log.c:215-236 | log_write within credit: a listed block is absorbed without a new entry or pin, any other is listed last and pinned once; it panics exactly when the log is full, and then nothing changes |
| `LogCode.FileLog.WriteLog` | kernel/log.c:179-192 | write_log fills every slot, invisibly, while other processes hold any home blocks; bget panics exactly when these and the transaction take all buffers, and otherwise it sleeps exactly when another process has locked a listed block |
| `LogCode.FileLog.InstallTrans` | kernel/log.c:66-84 | install_trans copies every slot home, invisibly, while other processes hold any home blocks; it sleeps exactly when another process has locked a listed block |
| `LogCode.FileLog.Commit` | kernel/log.c:194-204 | wherever commit is interrupted the disk recovers to the blocks before the transaction or after it; when it returns, after it; while other processes hold any home blocks, bget panics exactly when these and the transaction take all buffers |
| `LogCode.FileLog.RecoverFromLog` | kernel/log.c:117-124 | wherever recovery is interrupted the disk recovers to the same blocks; when it returns they are in place and the log is empty |
| `LogCode.BufferLeft` | kernel/bio.c:58-89 | bget of a block succeeds exactly when it is cached or the buffers that are pinned or held, by anybody, are fewer than NBUF |
| `LogCode.RoomIff` | kernel/bio.c:58-89 | the condition of commit in terms of the machine: transaction and other buffers in use are fewer than NBUF |
| `LogCode.NoBufferLeft` | kernel/bio.c:58-89 | with NBUF pinned blocks bget finds none |
| `LogCode.CommitTrace` | kernel/log.c:194-204 | a stretch of a run with one header write recovers to the state before it up to that write and to the state after it from then on |
| `BufferCache.Unlink` | kernel/bio.c:128-129 | two assignments take a node out of the circular list and keep it a circle in both directions |
| `BufferCache.LinkFirst` | kernel/bio.c:130-133 | four assignments put a node behind the sentinel |
| `BufferCache.RecycleKeepsView` | kernel/bio.c:76-86 | giving an unreferenced clean buffer to another block changes no block as seen through the cache |
| `BufferCache.FillKeepsView` | kernel/bio.c:92-103 | filling an invalid buffer shows what the disk holds |
| `BufferCache.Cache.constructor` | kernel/bio.c:36-53 | binit: a circle through all buffers, and every block reads as on disk |
| `BufferCache.Cache.Bget` | kernel/bio.c:58-89 | the block's only buffer, or the unreferenced buffer moved least recently, or the panic exactly when neither exists; no block looks different |
| `BufferCache.Cache.Bread` | kernel/bio.c:92-103 | a valid buffer with what an uncached disk with the same writes would hold |
| `BufferCache.Cache.Bwrite` | kernel/bio.c:106-112 | the disk catches up, readers see no difference |
| `BufferCache.Cache.Brelse` | kernel/bio.c:116-137 | one reference less; the last one makes the buffer the most recently moved |
| `BufferCache.Cache.Bpin` | kernel/bio.c:139-144 | one reference more |
| `FsBytes.WordsOfPut` | kernel/fs.c:430-436 | storing one entry of an indirect block, byte by byte, changes that entry only |
| `FsBytes.MarkOne` | kernel/fs.c:76-78 | setting a bitmap bit sets that bit only |
| `FsBytes.UnmarkOne` | kernel/fs.c:99-103 | clearing a bitmap bit clears that bit only |
| `FsModel.NoSharing` | kernel/fs.c:405-444 | under the ownership invariant two references to one block are the same reference |
| `FsModel.MarkedIsReached` | kernel/fs.c:66-106 | the set bits are exactly the metadata blocks and the blocks reached from inodes |
| `FsModel.AllocKeepsOwned` | kernel/fs.c:66-89 | a block allocated but not yet referenced keeps ownership of all others |
| `FsModel.FreeKeepsOwned` | kernel/fs.c:92-106 | freeing a referenced block keeps ownership of all others |
| `FsFiles.PatchReplaces` | kernel/fs.c:541-549 | writing into a mapped block replaces exactly those bytes of that file and no byte of any other |
| `FsFiles.ReplacedTwice` | kernel/fs.c:539-551 | two adjacent replacements are one |
| `FsFiles.ContentAfterWrite` | kernel/fs.c:528-562 | the contents after a write: the bytes before, the bytes written, the bytes after; all other files the same |
| `FsCode.FileSystem.Balloc` | kernel/fs.c:66-89 | the first clear bit is set and its block zeroed; 0 exactly when every bit is set |
| `FsCode.FileSystem.Bfree` | kernel/fs.c:92-106 | the bit is cleared; the panic exactly when it was clear |
| `FsCode.FileSystem.Bmap` | kernel/fs.c:405-444 | the block is mapped, or the disk is full; no file looks different, no other mapping changes; a new block and a new indirect block are logged with their bitmap blocks, and besides them at most the indirect block |
| `FsCode.FileSystem.Writei` | kernel/fs.c:528-562 | exactly bytes off to off + tot are replaced, the size becomes the maximum, ownership and mapping are kept even when balloc fails midway; a short write means that the user's bytes ran out or that the disk is full and the next block unmapped; the data blocks of the tot bytes, the bitmap blocks of new ones, a new indirect block with its bitmap block and the inode block are logged; no block changes but those logged and, if a copy from the user failed after some bytes, the one it was copied to; no other inode changes; and the number of logged blocks is at most that of the data blocks touched, those of them that can be new, the inode block and the indirect block, with its bitmap block only if it is new |
| `FsCode.FileSystem.Readi` | kernel/fs.c:494-519 | exactly the clamped slice of the contents, nothing changed |
| `FsCode.FileSystem.Itrunc` | kernel/fs.c:448-476 | exactly the file's blocks are freed, no other file changes, the free-block panic is not reached; exactly the bitmap blocks of the freed blocks and the inode block are logged, and no other block and no other inode changes |
| `FsCode.Truncated` | kernel/fs.c:448-476 | after truncation ownership holds again and the bitmap has lost exactly the blocks the inode reached |
| `FileWrite.ChunkFits` | kernel/file.c:149-158 | a chunk logs at most MAXOPBLOCKS blocks for any offset, because the block of an unaligned offset is mapped already |
| `WriteWitness.DiskIsGood` | mkfs/mkfs.c:174-185 | a full disk in the layout of mkfs, but for one block in each of four bitmap blocks, satisfies the ownership invariant |
| `WriteWitness.ChunkLogsTen` | kernel/file.c:149-158 | on that disk one chunk, written across the end of the direct blocks of file 1, logs exactly MAXOPBLOCKS blocks |
| `FileWrite.Transaction` | kernel/file.c:156-167 | one chunk: it is rejected exactly for an offset beyond the file or a file that would be too large, and cut short only when the user's bytes run out or the disk is full; exactly the bytes before it and its own are written; at most MAXOPBLOCKS blocks are logged and fewer than that before the inode block, so log_write does not panic |
| `FileWrite.Filewrite` | kernel/file.c:134-179 | a write of any length is one transaction for each chunk, in order, each of which writes exactly its chunk and logs the blocks that writei does, at most MAXOPBLOCKS; it fails only for an offset beyond the file, a file that would be too large, bytes that the user cannot supply or a full disk, with a first part written |
| `FileWrite.ChainIsPrefix` | kernel/file.c:155-173 | after each of these transactions the file holds exactly the chunks so far |
| `FsLayout.OnlyLoggedChange` | kernel/fs.c:448-562 | with inodes laid out in their blocks, a write or a truncation changes no block on disk but those it logs |
| `FsLayout.WordsAreOne` | kernel/fs.h:32-45 | the words of a block determine its bytes |
| `FsLayout.SameInode` | kernel/fs.h:32-45 | the blocks on disk determine size and addresses of every inode |
| `FsLayout.LayoutTellsFiles` | kernel/fs.c:495-520 | two file systems with the same blocks on disk hold the same bytes in every file |
| `FileCrash.ChainIsLinked` | kernel/file.c:155-173 | each transaction of a filewrite starts from what the one before it left and changes no block on disk but those it logs |
| `FileCrash.StaysOnTrack` | kernel/file.c:155-173 | until the first crash, the blocks are the layout of the file system after the operations that have ended, with what the open one has written so far |
| `FileCrash.CrashIsLast` | kernel/log.c:117-124 | if no operation begins after a crash, nothing is committed after it, whatever recovery and further crashes do |
| `FileCrash.CrashLeavesWholeChunks` | kernel/file.c:149-173 | after a crash anywhere in a filewrite that alone writes blocks, each chunk in one operation, and after recovery with further crashes, the disk holds exactly the layout of the file system after the chunks whose operations had ended at the last header write before the crash, and the file holds exactly these whole chunks |
| `CrashRuns.ChunkCanBeLost` | kernel/log.c:147-204 | for every chunk on every disk there is a run that meets all hypotheses of the previous row, in which the operation of the chunk has ended, the power fails before the header write, and the recovered disk holds the file system without the chunk |
| `HeapModel.LiveDisjoint` | user/umalloc.c:160-204 | live allocations lie in the heap and do not overlap |
| `HeapFreeList.PushedFront` | user/umalloc.c:46-55 | linking a block first keeps headers and live data, and the list holds it |
| `HeapFreeList.PushedBack` | user/umalloc.c:56-61 | linking a block last keeps headers and live data, and the list holds it |
| `HeapFreeList.Removed` | user/umalloc.c:63-78 | unlinking a block keeps headers, live data and the rest of the list |
| `HeapOps.SplitStep` | user/umalloc.c:137-156 | the writes of split_block keep the heap tiled and linked, and all live data outside the tail |
| `HeapOps.MergeStep` | user/umalloc.c:88-92 | absorbing the next block keeps the heap tiled and linked, and all live data |
| `HeapOps.ExtendStep` | user/umalloc.c:180-196 | appending a block at the old break keeps the heap tiled and linked, and all live data |
| `HeapOps.UserWrites` | user/umalloc.c:160-204 | whatever a user writes into an allocation changes neither the heap nor other allocations |
| `HeapOps.SplitPairs` | user/umalloc.c:137-156 | a split leaves no two free neighbours exactly when the block after is in use |
| `HeapCode.Heap.AddToFreeList` | user/umalloc.c:46-61 | the block is first under first fit, last otherwise; nothing live changes |
| `HeapCode.Heap.RemoveFromFreeList` | user/umalloc.c:63-78 | exactly that block leaves the list |
| `HeapCode.Heap.FindFreeBlock` | user/umalloc.c:111-133 | 0 exactly when nothing fits, else the first, smallest or largest fit, ties to the first in the list |
| `HeapCode.Heap.SplitBlock` | user/umalloc.c:137-156 | the tail becomes a listed free block if it can hold one |
| `HeapAlloc.Coalesce` | user/umalloc.c:82-107 | the live allocations and their data stay, the block ends with no free neighbour, and the block list and the free list are exactly those with its free neighbours joined to it |
| `HeapAlloc.JoinedBlock` | user/umalloc.c:85-104 | the joined block reaches from the start of a free block before it to the end of one after it, and the other blocks are as they were |
| `HeapAlloc.JoinedIsPlaced` | user/umalloc.c:53-61 | the joined block is first on the free list under first fit and last otherwise; the rest of the list keeps its order |
| `HeapAlloc.CarvingGivesBack` | user/umalloc.c:137-156 | a block that is cut for n bytes keeps n of them, or at most 47 more when the rest can hold no block; what is cut off is a listed free block behind it, of exactly the rest less its header |
| `HeapAlloc.SizesAreRight` | user/umalloc.c:163-178 | rounding, the page request and its use as a signed number are right exactly up to 2^31 - 4128 |
| `HeapAlloc.SumsFit` | user/umalloc.c:88-99 | the sums of coalescing are below the size of the heap |
| `HeapAlloc.RequestIsWrong` | user/umalloc.c:176-183 | above 2^31 - 4128 sbrk is given 0 or a negative number, except for the one size whose total wraps around to one page |
| `HeapAlloc.Malloc` | user/umalloc.c:160-204 | for every 32-bit size: exactly one new allocation of the rounded size and less than 48 bytes more, from the block the policy picks; the break rises only when nothing fits; the block list and the free list are exactly those of cutting that block; all old data stays; the exact conditions under which it returns 0, gives too little, or the process is killed |
| `HeapAlloc.Free` | user/umalloc.c:206-212 | exactly that allocation is gone, all others keep their bytes, free neighbours are joined, and the block list and the free list are exactly those of coalesce; free of 0 changes nothing |
| `HeapAlloc.MallocTooLittle` | user/umalloc.c:163-174 | malloc of 2^32 - 1 bytes succeeds with less than 64 bytes |
| `HeapAlloc.Calloc` | user/umalloc.c:214-220 | for all 32-bit arguments: an allocation of the 32-bit product with every byte of it zero, which holds the bytes asked for exactly when the product does not wrap around; the exact conditions of 0 and of a killed process |
| `HeapAlloc.CallocTooLittle` | user/umalloc.c:214-220 | calloc of 65537 times 65536 bytes succeeds with less than 65584 bytes |
| `HeapAlloc.Realloc` | user/umalloc.c:222-263 | for every 32-bit size: the first min(old, new) bytes are kept on all three paths, in place exactly when it shrinks or the next block suffices; in place, the block keeps less than 48 bytes more than the rounded size and all the rest is a listed free block behind it; elsewhere it is at most that much larger; failure changes nothing; the exact conditions of 0 and of a killed process; free neighbours arise exactly from a cut in front of a free block |
| `HeapAlloc.CopiedAt` | user/umalloc.c:260 | what memmove leaves at every address |
| `HeapAlloc.FilledAt` | user/umalloc.c:171-172 | what memset leaves at every address |
| `PtModel.WordRoundTrip` | kernel/riscv.h:358-369 | the word of an entry gives back the page and the flags |
| `PtModel.VpnOfWay` | kernel/riscv.h:371-380 | the three indices of a page below MAXVA determine its number |
| `PtModel.TableIsNode` | kernel/vm.c:105-123 | the table that walking finds for a page is the one whose place in the tree is the page's |
| `PtModel.NodeIsTable` | kernel/vm.c:105-123 | every page-table page is found by walking to the pages of its place |
| `PtModel.SlotsAreDistinct` | kernel/vm.c:105-123 | distinct page numbers or distinct trees reach distinct entries |
| `PtModel.OneHolder` | kernel/vm.c:153-182 | a page is held by at most one entry of all trees, and then it is neither free nor kept by the kernel |
| `PtModel.EveryPageIsSomewhere` | kernel/kalloc.c:46-95 | every page is on the free list, kept by the kernel, the root of a tree, or held by an entry |
| `PtSteps.HangKeepsTrees` | kernel/vm.c:116-120 | a new level changes no translation of any tree |
| `PtSteps.MappedLeaf` | kernel/vm.c:153-182 | writing a leaf entry changes that translation only |
| `PtCode.Kernel.constructor` | kernel/kalloc.c:26-40 | after kinit the page invariant holds, and the free list is exactly the pages from end on, the last one first |
| `PtCode.Kernel.Kalloc` | kernel/kalloc.c:83-95 | the head of the free list; 0 exactly when it is empty |
| `PtCode.Kernel.Kfree` | kernel/kalloc.c:46-64 | the page is first on the free list |
| `PtCode.Kernel.Walk` | kernel/vm.c:105-123 | the table of the page, or 0 without memory; what is mapped does not change, even where levels are created; each page taken is one missing table less, and all new tables are on the way to the page |
| `PtCode.Kernel.Mappages` | kernel/vm.c:153-182 | exactly the range is mapped, all else as before; the panic exactly on a mapped page; without memory a first part of the range |
| `PtCode.Kernel.Uvmunmap` | kernel/vm.c:200-220 | exactly the range is unmapped and, with do_free, exactly the pages mapped there are freed |
| `PtUser.GainPage` | kernel/vm.c:236-247 | a new page is mapped exactly when there is a free page for it and for each table that is missing on its way |
| `PtUser.Uvmalloc` | kernel/vm.c:224-248 | every page of the growth is mapped to a new page of zeros, exactly when the free pages are as many as the pages of the growth and the tables that they lack; exactly that many are taken; otherwise no user page is taken and no translation changes |
| `PtUser.Uvmdealloc` | kernel/vm.c:254-266 | exactly the pages between the two sizes are unmapped and freed |
| `PtFree.ReachedThrough` | kernel/vm.c:270-286 | a page-table page is reached through the entry that its place names |
| `PtFree.Freewalk` | kernel/vm.c:270-286 | where nothing is mapped the leaf panic is not reached and exactly the page-table pages of the subtree are freed |
| `PtFork.Uvmfree` | kernel/vm.c:290-296 | with all leaves below sz, exactly the pages of the tree are freed and no other tree changes |
| `PtFork.Uvmcreate` | kernel/vm.c:186-195 | an empty tree, or 0 with nothing changed |
| `PtFork.ProcPagetable` | kernel/proc.c:192-222 | a tree that maps the trampoline and the trapframe only; it fails exactly with fewer than three free pages, and then each page has the use it had |
| `PtFork.Uvmcopy` | kernel/vm.c:304-332 | the child has a copy of every page below sz with the same permissions, exactly when the free pages are as many as the mapped pages and the tables that they lack; exactly that many are taken; otherwise every user page taken is given back |
| `PtFork.BuiltThenFreed` | kernel/proc.c:226-232 | taking a newly built tree down restores the use of every page |
| `PtProc.ProcFreepagetable` | kernel/proc.c:226-232 | all pages of the tree are freed, not the trampoline and the trapframe |
| `PtProc.Allocproc` | kernel/proc.c:112-157 | a trapframe and a page table, exactly when a process is vacant and four pages are free; otherwise each page has the use it had |
| `PtProc.Freeproc` | kernel/proc.c:162-170 | after a failed copy each page has the use it had before allocproc |
| `PtProc.Kfork` | kernel/proc.c:272-322 | the child has a copy of the parent's memory, above it the trampoline and its own trapframe and nothing else, exactly when a process is vacant and the free pages are as many as four, the pages that the parent maps below sz and the tables these need; exactly that many are taken; otherwise the use of every page, all translations and all contents are restored |
| `PtProc.BootAndFork` | kernel/proc.c:236-290 | a kernel with ten pages boots, creates a process and forks it |
| `PtProc.SameFreePages` | kernel/kalloc.c:46-95 | pages with the same uses give the same set of free pages |
| `PtCopy.OnePlace` | kernel/vm.c:153-182 | a user page is mapped in one place of one tree |
| `PtCopy.Vmfault` | kernel/vm.c:460-481 | a page of zeros where none was mapped; 0 exactly when the page is at or above sz, is mapped, or free pages do not suffice for it and its tables; user memory reads as before |
| `PtCopy.Copyout` | kernel/vm.c:350-383 | exactly the given bytes are stored across pages, faulted ones included, and no other byte of any tree changes; only pages with user and write permission are written and mapped pages stay as they are; it fails exactly at a page that is above MAXVA, mapped without these permissions, or neither mapped nor to be had |
| `PtCopy.GuardIsKept` | kernel/vm.c:350-383 | a mapped page that the user may not write holds after copyout what it held |
| `PtCopy.Copyin` | kernel/vm.c:388-411 | exactly the bytes of user memory, which reads as before; it fails exactly at a page that is above MAXVA, mapped without user permission, or neither mapped nor to be had |
| `PtCopy.Copyinstr` | kernel/vm.c:417-454 | on success the bytes up to the first zero byte, fewer than max; on failure no zero byte among the first max, or none before a page the user cannot see; nothing changes |
| `VirtioMachine.PushRing` | kernel/virtio_disk.c:271-277 | writing a ring at a 16-bit index that wraps appends to the entries in it |
| `VirtioMachine.PopRing` | kernel/virtio_disk.c:312-324 | reading a ring at a 16-bit index that wraps takes the oldest entry |
| `VirtioInvariant.StepKeepsInv` | kernel/virtio_disk.c:156-327 | every step of requesters, of processes that change other buffers, of the device and of interrupts, failed transfers included, keeps: disjoint chains, intact descriptors, every unfinished request in exactly one place, finished ones have status 0 and agree with the disk |
| `VirtioTheorems.ChainsArePartition` | kernel/virtio_disk.c:201-213 | every taken descriptor is in the three-element chain of exactly one request |
| `VirtioTheorems.FreeDescNeverPanics` | kernel/virtio_disk.c:168-197 | the chain of a request is three taken descriptors linked in order |
| `VirtioTheorems.RingsAreNotOverrun` | kernel/virtio_disk.c:271-277 | no unread entry of either ring is overwritten |
| `VirtioTheorems.DeviceReadsRequests` | kernel/virtio_disk.c:235-272 | what the device reads is the head of an unfinished request with a sound chain |
| `VirtioTheorems.FinishAfterService` | kernel/virtio_disk.c:283-291 | in every run a requester proceeds only after the device has served its own chain; then after a write the disk holds the data as they were when the request was queued, and after a read the buffer holds the block as it was then |
| `VirtioTheorems.StepKeepsRequest` | kernel/virtio_disk.c:215-292 | no step of a process, the device or an interrupt changes a request in flight, the data it is to write or the block it is to read |
| `VirtioTheorems.RequestMovesOn` | kernel/virtio_disk.c:215-327 | no request is stranded: in every state its next step, by the device, the interrupt or the requester, is possible, unless a completion with an error is next, at which the driver panics |
| `VirtioCode.Driver.AllocDesc` | kernel/virtio_disk.c:156-166 | the first free descriptor, or -1 when there is none |
| `VirtioCode.Driver.Alloc3Desc` | kernel/virtio_disk.c:201-213 | three distinct descriptors, or fewer than three are free and all stay free |
| `VirtioCode.Driver.StartRw` | kernel/virtio_disk.c:215-281 | queueing a request is one step of the machine, and happens exactly when three descriptors are free; if not, requests are in flight |
| `VirtioCode.Driver.FinishRw` | kernel/virtio_disk.c:288-289 | freeing the chain is one step of the machine, without a panic |
| `VirtioCode.Driver.FreeChain` | kernel/virtio_disk.c:185-197 | the loop frees exactly the three descriptors |
| `VirtioCode.Driver.Intr` | kernel/virtio_disk.c:294-327 | every completion is handled up to the first with an error status, where the driver panics |
| `SleepLock.StepKeepsInv` | kernel/sleeplock.c:21-41 | every step keeps: the spin locks, the section, and that a decided sleeper whose lock is free is still to be looked at by the waker |
| `SleepLock.MutualExclusion` | kernel/sleeplock.c:21-41 | in every run at most one process is in the section |
| `SleepLock.NoLostWakeup` | kernel/proc.c:562-607 | in every run, while lk is free no process sleeps, or is about to, for a lock that is free |
| `SleepLock.WakerIsComing` | kernel/proc.c:593-607 | a sleeper whose lock is free is still ahead of the process in wakeup |
| `SleepLock.WakerIsNotStuck` | kernel/proc.c:593-607 | wakeup waits only for processes that can go on |
| `SleepLock.AcquireTakesLock` | kernel/sleeplock.c:21-31 | in every run acquiresleep returns only by taking the lock, which was free; a woken process looks at the lock again |
| `SleepLock.NeverStuck` | kernel/proc.c:562-607 | no deadlock: in every run, while a process is in acquiresleep or releasesleep and not asleep, one of these processes can take a step |
| `ExitWait.StepKeepsInv` | kernel/proc.c:326-431 | every step of fork, exit, reparent, wait, sleep and kill keeps the invariant of the process table |
| `ExitWait.NoSleepWithZombie` | kernel/proc.c:342-431 | in every run, while wait_lock is free no process sleeps in kwait, or is about to, with a zombie child, reparented ones included |
| `ExitWait.ZombieHasLiveParent` | kernel/proc.c:326-337 | the parent of a zombie is not a zombie itself |
| `ExitWait.ZombieHasNoChildren` | kernel/proc.c:364-377 | a process that has exited has no children left |
| `ExitWait.ZombieIsFreed` | kernel/proc.c:400-417 | in every run a kwait that finds a zombie child frees it and returns with wait_lock released; all other processes stay as they are |
| `ExitWait.CollectedOnce` | kernel/proc.c:387-431 | between two collections of the same process it has been forked again: each exit is collected at most once |
| `ExitWait.ForkedOnce` | kernel/proc.c:272-322 | between two forks into the same process it has been collected |
| `ExitWait.KidsAreCounted` | kernel/proc.c:396-419 | in every run, while kwait scans, it has counted a child exactly if there is one among the processes it has passed |
| `ExitWait.SleepsWithChild` | kernel/proc.c:422-429 | in every run kwait sleeps only with a child, and with no zombie among its children |
| `ExitWait.KwaitReturns` | kernel/proc.c:387-431 | in every run kwait returns only by collecting a zombie child or with -1; a woken process scans again |
| `ExitWait.ExitIsFinal` | kernel/proc.c:342-382 | in every run a process that has called kexit never runs user code again until it has been collected |
| `ExitWait.ParentIsForker` | kernel/proc.c:272-337 | in every run the parent of a process is the one that forked it last, or init |
| `ExitWait.NeverStuck` | kernel/proc.c:326-431 | no deadlock: in every run, while a process is in kexit or kwait and not asleep, one of these processes can take a step |
| `Scheduler.MaxPriority` | kernel/proc.c:450-458 | the highest priority seen among runnable processes, at least 0 |
| `Scheduler.Round` | kernel/proc.c:446-482 | the maximum is the highest priority seen, at least 0; the dispatches are in the order of the looks, pass after pass and in each the table from its beginning; each is of a process that the look found runnable with a sufficient priority, and every such look has a dispatch |
| `Scheduler.HighestFirst` | kernel/proc.c:461-481 | a process that the first pass finds runnable at the maximum is run before every process that only a later pass runs |
| `Scheduler.LastPass` | kernel/proc.c:461-481 | the pass for target 0 runs whatever is runnable when it comes to it |
| `Scheduler.RoundServes` | kernel/proc.c:446-482 | a process runnable at its visit for target 0 is run in that round whatever the others do |
| `Scheduler.RoundShares` | kernel/proc.c:446-482 | a process that is runnable with priority q whenever a pass comes to it is run exactly q + 1 times whatever the others do |
| `GrepMatch.OneMatches` | user/grep.c:93-94 | a single character at the start of a text, unfolded from the meaning |
| `GrepMatch.StarMatches` | user/grep.c:89-90 | a repeated character at the start of a text, unfolded from the meaning |
| `GrepMatch.MatchHere` | user/grep.c:85-96 | true exactly when some beginning of the text is in the language of the pattern |
| `GrepMatch.MatchStar` | user/grep.c:99-106 | true exactly when some fitting characters are followed by a match |
| `GrepMatch.Match` | user/grep.c:72-82 | true exactly when the text satisfies the declarative meaning of literals, '.', c*, '^' and '$' |
| `GrepFilter.OutputIsPrefix` | user/grep.c:11-35 | the output is the matching newline-terminated lines in front of the first line longer than 1022 characters |
| `GrepFilter.CompleteIff` | user/grep.c:11-35 | the output is all the matching lines exactly when no matching line stands at or after the first line longer than 1022 characters |
| `GrepFilter.AlwaysCompleteIff` | user/grep.c:11-35 | the output is all the matching lines whatever the pattern exactly when no line is longer than 1022 characters |
| `GrepFilter.WriteLines` | user/grep.c:21-29 | every complete line in the buffer is written if it matches |
| `GrepFilter.Grep` | user/grep.c:11-35 | for every NUL-free input and every way read splits it, the matching lines up to the first that does not fit |

## Left out

- Device registers, interrupts as such, boot, traps and context switches; the virtio device serves and completes in any order and may report an error for any request, but follows the descriptor chains; memory fences are not modelled.
- Spin loops: acquire and release of a spin lock are parts of one step.
- Directories, path names, links, inode allocation and reference counts, pipes, exec, signals and the console.
- In the log machine an operation adds at most MAXOPBLOCKS entries, as the source asks of its callers; it is proved of filewrite (`FileWrite.Transaction`) and not of the other system calls. The log area has at least LOGBLOCKS blocks, as mkfs lays it out.
- The procedures in `LogCode` run while the other processes hold what they hold; arbitrary interleavings are the runs of the log machine.
- `FileCrash.CrashLeavesWholeChunks` takes as its hypothesis on the writer that each of its operations writes exactly the blocks that the transaction of the chunk logs and leaves in them what the transaction does (`Performs`), and that no other process writes blocks; the file system code is sequential and is not itself run as steps of the log machine. Of a filewrite that fails, it covers the whole chunks and not the part of the last one.
- `CrashRuns.ChunkCanBeLost` asks that the logged blocks are outside the log area, as in the layout of mkfs.
- In `FsLayout` the type, device numbers and link count of an inode on disk are 0, because they are not modelled.
- The log machine lets bget recycle any unreferenced buffer; that it is the least recently moved one is proved in `BufferCache`.
- The cache model needs a nonzero device number, because all buffers start with the key (0, 0).
- Inode blocks hold typed inodes and not bytes; bitmap blocks and indirect blocks are bytes.
- A user copy that fails may leave up to `torn` bytes of one block changed and not logged; the file contracts count them apart.
- Heap headers are single cells at the address of their block and free links single cells at the start of a payload; the name field and the printing of the heap are left out.
- The heap grows contiguously and a pointer passed to free or realloc is live, as the allocator itself takes for granted; sbrk's success is a parameter. A process that touches memory beyond the break is killed (`LOST`), and nothing is said of its memory.
- `HeapAlloc.Realloc` does not model the order in which memmove copies, because the two regions never overlap.
- Physical pages are page-table pages or bytes; the kernel's own page table and mmap are left out.
- Of kfork the pages and, in `ExitWait`, the parent link are modelled; the bytes of the trapframe, open files, directory and name are not.
- The size of a process is at most TRAPFRAME, which the lazy branch of sbrk does not enforce.
- Alloc3Desc: its two loops over three descriptors are written out.
- Allocproc: with no vacant process the source also sets two fields of the entry after the last one of the process table (kernel/proc.c:122-123), which is outside this model; whether a process is vacant is a parameter.
- Only the sleep in kwait is modelled in `ExitWait`; the page release inside freeproc is in `PtProc`.
- The default priority of a new process: the scheduler results are about whatever priorities are seen.
- Shells, printf, test programs, sort and the string helpers: input and output, or easy.
