# Verified core of a small AArch64 kernel

This project models the parts of the kernel whose correctness depends on more
than one function, and proves what they promise over all inputs and all runs.

| part | files | form |
|---|---|---|
| write-ahead log and block cache | `Log*.dfy`, `Cache*.dfy`, `BlockCache.dfy` | a transition system with crashes, and a class that refines it |
| block allocation, inodes, files, directories, handles | `Bits.dfy`, `Fs*.dfy`, `FileSystem.dfy`, `Directory.dfy`, `InodeTable.dfy` | classes over blocks of bytes |
| four-level page tables | `PageTable.dfy`, `TableCount.dfy`, `VirtualMemory.dfy`, `MemoryExamples.dfy` | a class over one memory of frames |
| sleep, wakeup, sleep locks, fork, wait, exit, scheduler | `Proc*.dfy` | a transition system for any number of CPUs and processes |
| shell parser | `ShellGrammar.dfy`, `ShellParser.dfy`, `ShellSyntax.dfy`, `ShellText.dfy` | functions on tokens, methods on text |
| slab allocator and circular lists | `Arena.dfy`, `CircularList.dfy` | classes |
| SD request queue | `SdQueue.dfy` | classes |
| console line discipline | `Console.dfy` | a class over a ring buffer |

`dafny verify dfyconfig.toml` checks everything.

**The log.** A step is one critical section of `cache.c` or one write of a single
sector; a crash can come between any two steps, also during recovery. The theorems
of `LogTheorems`, `LogBudget` and `LogConsistency` hold in every run from power-on with
any mountable disk.
`BlockCache` is the C code with its loops. As long as no held block is evicted, which is
so while every holder is flagged as acquired, each of its operations is proved to be a
run of the machine, so that the theorems apply to it. `FsRecovery` reads the blocks of
the log machine as bitmap, inodes and files: when all writes come from transactions of
the file system, what is recovered after a crash is consistent.

**Files.** `Owned` says that the marked bits of the bitmap are exactly the metadata
blocks and the blocks that inodes point to, each pointed to once. A file is one byte
sequence spread over its blocks; a directory is a finite map from names to numbers. The
class keeps, next to its fields, the blocks as they were last synced (`image`) and the
syncs of the current transaction in order (`FsImage`); `Valid` ties them together, so
every operation that keeps `Valid` takes a good image to a good one.

**Page tables.** All tables of all page directories share one memory. Every table
carries a tag with its directory, level and index prefix; the tags make the walk
injective, and each operation is stated by what it does to the flat page map.
`TableCount` counts the tables that walks lack, which decides when memory runs out.

**Processes.** Taking and releasing a spin lock are steps of their own, and a process
can be interleaved with the others between any two steps. Fork is seven steps, from
taking the table lock to the store of RUNNABLE. What `ProcTheorems` states holds in
every run in which no two forks find the same record. `ProcHolders` does not need that
condition, but once two CPUs execute one process the machine gives them one common
position, so for the code it too speaks of the run up to that point. `ProcCalls` says what
a call has done when it returns, and `ProcProgress` that no executed process is stuck.

**The shell.** `ShellGrammar` is the recursive descent on tokens, `ShellParser` the C code
on the text. `ShellSyntax` is a grammar of lines that knows nothing of either, with a tree
for each line, and `ShellText` says which texts spell which tokens.

## Where the code departs from its own documentation

- A cache hit does not set `acquired`, so a block can be evicted while it is held
  (`HeldBlockIsEvicted`); `SurvivesAcquireIff` says exactly when it is not. In the log
  machine a held block is not evicted, which is the documented intent.
- Blocks are unpinned only during recovery, so the number of cached blocks is bounded
  only as far as `CacheSize` says, which is exact (`CacheOutgrowsThreshold`).
- A sync panics on a full log even when the block is logged already
  (`AbsorbedSyncPanics`, `SyncPanicsIff`, `TenBlocksSuffice`).
- The log header is addressed without the partition offset; it is apart from all
  blocks exactly when the log starts below that offset (`HeaderSectorIsPrivate`).
- inode_alloc can return the number of inodes, which inode_get rejects: exactly when no
  inode below it is free (`InodeAlloc`, `LastInodeTaken`).
- inode_put drops the lock of the list while it frees an inode. The table stays good
  exactly when nobody gets the inode in between (`PutEnd`); otherwise a handle to a
  freed node is left (`GetWhileClosing`).
- alloc_pcb releases the table lock while the record it found is still UNUSED, and fork
  stores EMBRYO and RUNNABLE without the lock. Two forks that find the same record put
  one process on two CPUs (`TwoCpusOneProcess`). A step keeps the invariant exactly when
  it does not find a record that another fork has found and not yet made EMBRYO
  (`StepKeepsInv`), and in every run without such a step no process is on two CPUs
  (`NoTwoCpus`).
- filewrite passes the whole count to the first transaction, so it returns only for
  counts from 0 to 1536: on a file exactly when the range fits and enough blocks are free,
  and it panics for all other counts (`FileWrite`).
- Freeing an inode syncs one bitmap block for each bitmap block that covers its blocks,
  and its inode block. That is within the budget of ten exactly when at most nine bitmap
  blocks cover them, as on every disk with at most nine (`InodeFree`, `FreeCost`).
- A directory entry keeps 16 bits of the inode number (`InodeInsert`).
- PTE_ADDRESS keeps 32 bits, so frame numbers are taken modulo 2^20 (`EntryFrame`).
- copyout does not map missing pages; it writes their bytes to physical page 0 and
  returns 0 (`UnmappedCopyOut`). The range reads back exactly when all of it was mapped.
  When fewer frames are free than the walks lack tables, and exactly then, it reads
  through a null pointer (`CopyOut`, `CopyOutWithoutMemory`).
- uvm_copy ignores a failed kalloc and a failed uvm_map. The child is complete exactly when
  `Frames(n)` frames are free for the n pages of the parent: with fewer it lacks pages or has
  them mapped to frame 0 (`UvmCopy`, `ChildWithoutPage`). When at most `Frames(n - 1)` are
  free, the copy to the null pointer overwrites page 0 of the parent itself
  (`ParentOverwritten`).
- uvm_map of a range that goes all the way around to its own first page maps that page
  only (`PagesMetIs`).
- uvmunmap does nothing when the end of its range wraps around, so it undoes uvm_map
  exactly for ranges that end below 2^64 (`MapThenUnmap`, `TopPageStays`).
- `>` and `>>` give the same tree on every line (`AppendIsForgotten`, `TwoLinesOneTree`).
- sdrw on a buffer that is valid and not dirty queues a request and returns before it
  takes effect (`Sdrw`, `EarlyReturn`). A buffer that is queued twice breaks the queue at
  the next push (`Push`, `LostBuffer`).

## Model

| member | source | states |
|---|---|---|
| LogMachine.HeaderSectorIsPrivate | src/fs/cache.c:32-49 | no block shares a sector with the log header if and only if the log starts below sector 0x20800; the header is in sector log_start, and log entry t in sector 0x20800 + log_start + 1 + t |
| LogMachine.CapacityIsPlaces | src/fs/cache.c:176 | log.mx is the number of log entries that have a place, both in the header and among the log blocks |
| LogRuns.KeepsInvariant | src/fs/cache.c:77-275 | every step of the log machine, crash and recovery steps included, keeps the invariant: accounting, recoverable disk, pinned log blocks, cache agreeing with the current image |
| LogTheorems.RecoverableIsRecovered | src/fs/cache.c:141-159 | the invariant's notion of recoverable is exactly that reading the header and installing the logged blocks gives the image |
| LogTheorems.CrashAtomicity | src/fs/cache.c:141-275 | whenever power fails, mounting gives the initial image after exactly the writes of the durable operations in issue order; each operation is all or nothing; every operation whose end_op returned is durable and none that has not called end_op is |
| LogTheorems.CacheIsTransparent | src/fs/cache.c:77-139 | acquiring a free block gives the last synced contents, logged blocks stay cached, and outside commit sector 0x20800 + b holds block b of the durable image |
| LogTheorems.LogSpaceIsAccounted | src/fs/cache.c:181-275 | mu is the sum of the remaining budgets, every block logged and every block that may still be logged has a place, header entries are distinct, committing implies no open operation |
| LogTheorems.AdmitsIff | src/fs/cache.c:181-199 | in every run, outside a commit, begin_op goes on if and only if, behind the blocks logged and those the open operations may still log, there are places for ten more |
| LogTheorems.SyncPanicsIff | src/fs/cache.c:202-231 | a sync panics if and only if the operation has no budget and the block is new to the log or the log has no place left |
| LogTheorems.DurableForever | src/fs/cache.c:242-275 | what is durable stays durable in every continuation, and what has returned stays returned |
| LogTheorems.LostStaysLost | src/fs/cache.c:154-159 | an operation cut off by a crash is durable from then on or never |
| LogTheorems.RecoveryCompletes | src/fs/cache.c:154-159 | an uninterrupted recovery is never stuck, installs every durable block and empties the log |
| LogTheorems.CommitCompletes | src/fs/cache.c:242-275 | from any point of a commit, once nobody holds a logged block, the remaining steps can all be taken; then the log is empty, and every operation that was inside end_op is durable and can return |
| LogBudget.TenBlocksSuffice | src/fs/cache.c:202-228 | in every run an operation that syncs at most ten different blocks panics if and only if it has no budget, has synced the block before and the log has no place left; with nine it never panics |
| LogConsistency.CrashConsistency | src/fs/cache.c:141-275 | any property of the data blocks that holds at power-on and each time the last open operation ends holds of the recovered disk after a crash at any point of any run |
| LogExamples.AbsorbedSyncPanics | src/fs/cache.c:206-208 | a run that ends in a panic although the write would be absorbed |
| CacheList.VictimsAreOldest | src/fs/cache.c:104-117 | a block is evicted if and only if it may be and fewer than k evictable blocks were acquired longer ago |
| CacheList.EvictTailLength | src/fs/cache.c:104-117 | exactly as many blocks go as needed, or all that may |
| CacheList.CacheSize | src/fs/cache.c:104-122 | how many blocks are cached after a miss: if at least 20 of the old ones are pinned or flagged as acquired, those and the new one, and otherwise one more than before but at most 20 |
| CacheList.CacheOutgrowsThreshold | src/fs/cache.c:104-122 | with twenty pinned blocks a miss leaves twenty-one blocks in the cache |
| CacheList.AcquireKeepsDistinct | src/fs/cache.c:82-121 | at most one cached copy per block number; the acquired block is first |
| CacheList.AcquiredIs | src/fs/cache.c:82-131 | a hit moves the block to the front with its flag and pin as they were; a miss puts sector 0x20800 + b of the disk there, flagged as acquired; the holder is the caller |
| CacheList.ReleasedIs | src/fs/cache.c:135-139 | a release clears the flag and the holder of that block and nothing else |
| CacheList.SurvivesAcquireIff | src/fs/cache.c:94-117 | exactly when a cached block outlives the acquire of another block |
| CacheList.HeldBlockIsEvicted | src/fs/cache.c:94-117 | a sequence of acquires that evicts a block while a thread holds it |
| CacheRefinement.EvictsRefine | src/fs/cache.c:105-117 | the eviction loop is a run of evict steps of the machine |
| CacheRefinement.AcquireRefines | src/fs/cache.c:77-132 | an acquire that evicts no held block is a run of evict steps that ends in the machine's acquire step |
| CacheRefinement.CopyStep | src/fs/cache.c:232-241 | one round of write_log, evictions included, is a run of the machine that ends in its copy step |
| CacheRefinement.InstallStep | src/fs/cache.c:141-152 | one round of install_trans in a commit is a run of the machine that ends in its install step |
| CacheRefinement.BootStep | src/fs/cache.c:141-159 | the same for a round during recovery, which also unpins |
| BlockCache.BlockCache.constructor | src/fs/cache.c:162-178 | power-on state with an empty cache, for which the invariant holds |
| BlockCache.BlockCache.TakeBlock | src/fs/cache.c:77-132 | search, move to front, eviction and load compute the list function that the cache theorems are about |
| BlockCache.BlockCache.Acquire | src/fs/cache.c:77-132 | the cache still represents a machine state if and only if no held block was evicted, which holds when all holders are flagged; then the call is a run of evict steps and the machine's acquire step, and the data are the last synced contents of the block; otherwise the machine state is left as it was |
| BlockCache.NoRunLosesHeld | src/fs/cache.c:94-117 | no run of evict and acquire steps of the machine leads to a list from which a held block is gone |
| BlockCache.BlockCache.EvictOld | src/fs/cache.c:104-117 | the loop from the tail removes exactly the specified victims |
| BlockCache.BlockCache.Release | src/fs/cache.c:135-139 | is the release step of the machine and keeps the invariant |
| BlockCache.BlockCache.Modify | src/fs/inode.c:329 | a change to the data of an acquired block is the modify step of the machine |
| BlockCache.BlockCache.Bzero | src/fs/cache.c:282-287 | panics exactly when the sync does, and otherwise exactly this block of the current image is zero and it is free again |
| BlockCache.BlockCache.Sync | src/fs/cache.c:202-231 | panics if and only if the log has no place for another entry, no operation is open, or the block is new and the operation has no budget; otherwise is the sync step of the machine and keeps the invariant |
| BlockCache.BlockCache.RecordBlock | src/fs/cache.c:217-228 | recording the block in the header if it is new, and pinning it, is the sync step of the machine |
| BlockCache.BlockCache.FindLogged | src/fs/cache.c:211-216 | finds the block in the header if and only if it is logged |
| BlockCache.BlockCache.BeginOp | src/fs/cache.c:181-199 | sleeps if and only if a commit runs or the log has no room for ten more blocks behind those logged and promised; otherwise is the begin step of the machine |
| BlockCache.BlockCache.LeaveOp | src/fs/cache.c:252-266 | is the end step of the machine; the caller commits exactly when no other operation is open; the panic is not reached |
| BlockCache.BlockCache.EndOp | src/fs/cache.c:252-275 | a legal run of the machine; if the caller commits, every operation that waited is then durable and woken |
| BlockCache.BlockCache.WriteLog | src/fs/cache.c:232-241 | the loop is a legal run of copy steps up to the commit point and keeps the invariant, by which every logged block is then in the log |
| BlockCache.BlockCache.InstallTrans | src/fs/cache.c:141-152 | the loop is a legal run of install steps, in a commit and in recovery |
| BlockCache.BlockCache.PutHeader | src/fs/cache.c:47-49 | the header write is the commit point of the machine |
| BlockCache.BlockCache.EraseLog | src/fs/cache.c:247-248 | clearing the header is the erase step |
| BlockCache.BlockCache.Commit | src/fs/cache.c:242-250 | commit is a legal run of the machine after which the current image is the durable one and every data block is at its home location |
| BlockCache.BlockCache.RecoverFromLog | src/fs/cache.c:154-159 | recovery is a legal run of the machine after which the disk holds the recovered image |
| FsLayout.WordAfterSet | src/fs/inode.c:264-269 | a written entry of an indirect block reads back and no other entry changes |
| FsLayout.LittleEndian | src/fs/defines.h:60-62 | entry i of an indirect block is its four bytes from 4i on, lowest first |
| Bits.BitsAfterSet | src/fs/cache.c:295-297 | setting a bit changes that bit only |
| Bits.BitsAfterClear | src/fs/cache.c:316-321 | clearing a bit changes that bit only |
| Bits.BitIs | src/common/bitmap.h:26-44 | bit k of a byte is the one that counts 2^k |
| FsOwnership.UsedIsBit | src/fs/cache.c:291-297 | block b is in use if and only if bit b % 8 of byte b % 4096 / 8 of bitmap block b / 4096 is set |
| FsOwnership.AllocKeeps | src/fs/cache.c:288-307 | marking and zeroing a free block keeps ownership, makes the block loose and changes no file |
| FsOwnership.FreeKeeps | src/fs/cache.c:311-324 | a loose block is marked, and freeing it keeps ownership |
| FsOwnership.LinkDirect | src/fs/inode.c:250-257 | storing a loose block in an empty direct slot keeps ownership |
| FsOwnership.LinkIndirect | src/fs/inode.c:261-263 | storing a loose zeroed block as indirect block keeps ownership and all addresses |
| FsOwnership.LinkWord | src/fs/inode.c:264-270 | storing a loose block behind the indirect block keeps ownership and all other files |
| FsOwnership.DataWrite | src/fs/inode.c:327-331 | writing a data block changes no other file and no pointer |
| FsOwnership.UnlinkAll | src/fs/inode.c:167-190 | emptying an inode makes exactly its blocks loose |
| FsImage.EntryRoundTrip | src/fs/defines.h:48-57 | the 64 bytes of an inode entry read back as the entry |
| FsImage.InodeBytes | src/fs/defines.h:49-57 | where each field of inode i is in the image, byte for byte, lowest first |
| FsImage.EntryAfterPut | src/fs/inode.c:101-107 | storing an entry in an inode block changes that entry only |
| FsImage.AgreesReads | src/fs/inode.c:18-26 | what is read from an image as bitmap and inodes is what the fields hold |
| FileSystem.TransactionKeepsGood | src/fs/file.c:123-131 | whatever operations a transaction is made of, its syncs take a good image to a good one |
| FsRecovery.ReplayIsApplied | src/fs/cache.c:141-152 | replaying issued writes is applying them as syncs to the blocks of bytes |
| FsRecovery.BytesSpell | src/fs/defines.h:70-73 | each word of a sector is spelled by its eight bytes, lowest first |
| FsRecovery.TransactionsKeepGood | src/fs/cache.c:252-275 | when each group is made of such transactions, the image is good each time the last open operation ends |
| FsRecovery.ConsistentAfterCrash | src/fs/cache.c:141-275 | when the writes of every group are made of transactions that each take a good image to a good one, the bitmap, inodes and files that any mount after any crash finds are consistent |
| FsRecovery.WriteFitsBudget | src/fs/file.c:116-131 | in every run an operation that works through the syncs of a write of at most 1536 bytes panics in none of them, because only the last one can be of a tenth block |
| FileSystem.FileSystem.CacheAlloc | src/fs/cache.c:288-307 | returns the lowest free block, marked and zeroed, and syncs its bitmap block and itself; panics if and only if no block is free |
| FileSystem.FileSystem.CacheFree | src/fs/cache.c:311-324 | unmarks the block and syncs its bitmap block; panics if and only if it is not marked |
| FileSystem.FileSystem.InodeMap | src/fs/inode.c:241-277 | for every index: the place holds the block returned, a new one if and only if it was empty; every other place, the contents of the file, ownership and all other files are kept; fails if and only if the index is out of bound or fewer blocks are free than it needs, one or, without the indirect block, two |
| FileSystem.FileSystem.MapFileBlock | src/fs/inode.c:241-277 | on a file without holes, a block of the file or the next one leaves a file without holes with the same contents; the free blocks go down by exactly the growth, and it fails if and only if there are fewer |
| FileSystem.FileSystem.ReadChunk | src/fs/inode.c:298-303 | one round gives the bytes of the file at its offset and changes nothing |
| FileSystem.FileSystem.InodeRead | src/fs/inode.c:280-305 | a device is the console if and only if its major number is 1; on a file the asserts hold if and only if the offset is within the file and the sum does not wrap; then the result is that slice of the file, and nothing changes |
| FileSystem.FileSystem.WriteChunk | src/fs/inode.c:326-332 | one round writes exactly its bytes and syncs at most the blocks counted; fails if and only if fewer blocks are free than the file grows by |
| FileSystem.FileSystem.WriteLoop | src/fs/inode.c:326-332 | all rounds together write exactly the source bytes, take exactly the missing blocks, and the number of synced blocks is bounded; fails if and only if fewer blocks were free before the first round |
| FileSystem.WriteBounds | src/fs/inode.c:313-321 | the three asserts of inode_write, where the end wraps around, hold if and only if the offset is within the file and the range fits |
| FileSystem.FileSystem.WriteFile | src/fs/inode.c:323-338 | behind the asserts, the file becomes the splice of the old file and everything else is kept; fails if and only if fewer blocks are free than the file must grow by, one more when it gets its indirect block |
| FileSystem.FileSystem.InodeWrite | src/fs/inode.c:308-339 | a device is the console if and only if its major number is 1; on a file it succeeds if and only if the range fits, where the end may wrap around, and as many blocks are free as data blocks are missing, and one more when the indirect block is; then the file becomes the splice of the old file, every other file is unchanged, memory and disk agree on every inode, exactly those blocks are taken, and at most 1536 bytes sync at most 10 blocks, the tenth last |
| FileSystem.FileSystem.InodeSync | src/fs/inode.c:96-108 | the entry in memory goes to its place in its inode block, which is synced; the image still holds all inodes |
| FileSystem.FileSystem.InodeClear | src/fs/inode.c:167-190 | every free succeeds, the inode has no blocks and no bytes and is otherwise as before, the blocks that become free are exactly those of this inode, and the blocks synced are exactly their bitmap blocks and the inode block |
| FileSystem.FileSystem.InodeFree | src/fs/inode.c:213-216 | the inode is free on disk, exactly its blocks are free, and exactly their bitmap blocks and the inode block are synced |
| FileSystem.FreeCost | src/fs/inode.c:167-190 | freeing an inode syncs one block more than the number of bitmap blocks that cover its blocks, which is at most that of the disk |
| FileSystem.FileSystem.InodeAlloc | src/fs/inode.c:59-80 | takes the lowest free inode in 1..=num_inodes, which has the type given and is otherwise all zero; panics if and only if there is none; the result is usable if and only if an inode below num_inodes was free |
| FileSystem.LastInodeTaken | src/fs/inode.c:59-80 | on one consistent disk inode_alloc returns the number of inodes |
| FileSystem.EndArithmetic | src/fs/file.c:116 | the data, bitmap and indirect blocks of a write of at most 1536 bytes are at most nine |
| Directory.SameName | src/common/string.c:68-77 | strncmp finds two names equal if and only if their keys, the bytes before NUL up to 14, are equal |
| Directory.KeyIs | src/common/string.c:68-77 | the key of a name is its bytes up to the first NUL, the end or the limit |
| Directory.SlotLayout | src/fs/defines.h:65-68 | directory entry k is the sixteen bytes from 16k on: the inode number, lowest byte first, and fourteen bytes of name |
| Directory.StoreName | src/common/string.c:48-56 | strncpy stores the key, padded with NUL |
| Directory.InsertBinds | src/fs/inode.c:386-388 | writing a fresh name to a free slot adds exactly one binding and keeps names unique |
| Directory.RemoveBinds | src/fs/inode.c:393-400 | zeroing a slot deletes exactly its binding and keeps names unique |
| Directory.RemoveUndoesInsert | src/fs/inode.c:366-400 | removing an inserted name gives the old map back |
| Directory.BoundBySlot | src/fs/inode.c:349-360 | the map binds a key to the number in the slot that holds it |
| Directory.InodeLookup | src/fs/inode.c:342-363 | returns the bound number and the offset of its slot, or 0 if and only if the name is not bound |
| Directory.FreeSlotIndex | src/fs/inode.c:381-385 | finds the first free slot or the end |
| Directory.WriteSlot | src/fs/inode.c:386-388 | the entry adds the binding to the low 16 bits of the number, or none when they are 0; fails if and only if it does not fit or needs more blocks than are free |
| Directory.InodeInsert | src/fs/inode.c:366-390 | refuses a bound name if and only if it is bound, and otherwise adds one binding in the first free slot or at the end; fails if and only if the name is new, no slot is free, and a new one does not fit or needs more blocks than are free; no other file changes |
| Directory.InodeRemove | src/fs/inode.c:393-400 | zeroes sixteen bytes at any offset, failing if and only if they do not fit or need more blocks than are free; at a slot it never fails and deletes exactly the binding of that slot, at the end it binds nothing; no other file changes |
| InodeTable.InodeTable.InodeGet | src/fs/inode.c:124-165 | returns the live node if there is one; each inode has at most one live node and its count is the number of handles |
| InodeTable.InodeTable.FindNode | src/fs/inode.c:129-145 | a live node of the inode if and only if there is one, or else a node without handles |
| InodeTable.InodeTable.TakeNode | src/fs/inode.c:146-163 | a node without handles, or a new one, becomes the only live node of the inode |
| InodeTable.InodeTable.InodeShare | src/fs/inode.c:193-198 | one more handle |
| InodeTable.InodeTable.PutBegin | src/fs/inode.c:203-211 | decides to free if and only if this is the last handle of an inode without links, and otherwise takes one handle back |
| InodeTable.InodeTable.PutEnd | src/fs/inode.c:213-225 | the inode and exactly its blocks are freed and the node goes; the table stays valid if and only if nobody got the inode since the list lock was dropped |
| InodeTable.InodeTable.InodePut | src/fs/inode.c:201-230 | undisturbed, the inode and its blocks are freed if and only if this was the last handle of an inode without links |
| InodeTable.InodeTable.PutTransaction | src/fs/file.c:73-77 | as fileclose calls it, its syncs take a good image to a good one |
| InodeTable.InodeTable.GetWhileClosing | src/fs/inode.c:201-230 | from any such state, a get between the two halves ends with a handle to a node that is gone |
| InodeTable.OpenFile.FileWrite | src/fs/file.c:110-139 | every count, taken as unsigned, ends in a return of that count if and only if it is 0, or at most 1536 and on the console, or at most 1536 with the range fitting and as many blocks free as the file must grow by; then the file is spliced, the offset moves on, at most 10 blocks are synced, the tenth last, and the image stays good, or the bytes went to the console |
| PageTable.HighBitsIgnored | src/core/virtual_memory.h:73-76 | page numbers are told apart only modulo 2^36 |
| PageTable.EntryBits | src/core/virtual_memory.c:129 | an entry made from any address and odd flags is valid, names the address's frame modulo 2^20, and is a leaf if the second flag is set |
| Bits.OrBits | src/core/virtual_memory.c:129 | a bit of x or y is that of x or that of y |
| PageTable.EntryHasBits | src/core/virtual_memory.c:129 | low bit k of an entry is that of the address or of the flags; for an aligned address the low twelve bits are exactly the flags; the rest is the address |
| PageTable.FlagBits | src/aarch64/mmu.h:20-36 | PTE_TABLE is bits 0 and 1; PTE_USER_DATA is valid, page, normal memory, user, outer shareable and accessed, and no other bit |
| PageTable.TranslateIs | src/core/virtual_memory.c:69-84 | the translation of the page with indices i3, i2, i1, i0 is entry i0 of the table in entry i1 of the table in entry i2 of the table in entry i3 of the directory, and 0 where one is not valid |
| PageTable.EntryFrame | src/aarch64/mmu.h:25-59 | an entry made from a frame and odd flags is valid and names that frame modulo 2^20 |
| PageTable.WalkInjective | src/core/virtual_memory.c:69-84 | two pages below 2^36 of any two directories share an entry if and only if they are the same page of the same directory |
| PageTable.SetPage | src/core/virtual_memory.c:129-184 | writing the entry of a page changes the translation of that page and of no other, in any directory |
| PageTable.AddTable | src/core/virtual_memory.c:78-81 | a new table changes no translation |
| PageTable.NewRoot | src/core/virtual_memory.c:58-61 | a new directory maps nothing and changes no other |
| TableCount.NeededMore | src/core/virtual_memory.c:69-84 | after the walks for some pages, one more page lacks exactly as many tables as it adds to the set that all of them need |
| TableCount.SkeletonMissing | src/core/virtual_memory.c:69-84 | behind n consecutive pages from 0 the next one lacks one table for each level at which n begins a new one |
| VirtualMemory.Memory.PgdirInit | src/core/virtual_memory.c:58-61 | a directory in a free frame that maps nothing, or null if and only if no frame is free |
| VirtualMemory.Memory.PgdirWalk | src/core/virtual_memory.c:69-84 | finds the entry's table; whether it succeeds or fails no translation changes, and every entry that is new names a table and has no flag but valid and table; with alloc it fails if and only if fewer frames are free than tables are missing on the way, and otherwise takes exactly those, and without it if and only if one is missing |
| VirtualMemory.ConsecutiveFrames | src/core/virtual_memory.c:129-134 | the pages mapped from an address on have consecutive frames modulo 2^20 |
| VirtualMemory.PagesMetIs | src/core/virtual_memory.c:122-134 | the pages of a range are those that begin before its end; of a range that comes back to its first page it is that page alone |
| VirtualMemory.PageSpanIs | src/core/virtual_memory.c:286-333 | the pages of a copy are those that begin before its end |
| VirtualMemory.PagesBelowIs | src/core/virtual_memory.c:166-186 | the pages that uvmunmap visits are those below its end, which is taken modulo 2^64 |
| VirtualMemory.Memory.UvmMap | src/core/virtual_memory.c:115-137 | maps exactly the pages of `PagesMetIs`, for any physical address, each to its frame with the bits valid, page, normal, user, outer shareable and accessed and no other but those of the address, and takes exactly the tables they need; stops early exactly with the first n done, when fewer frames are free than that or on the first page already mapped |
| VirtualMemory.Memory.UnmapPage | src/core/virtual_memory.c:180-184 | clears one page and returns its frame |
| VirtualMemory.Memory.Uvmunmap | src/core/virtual_memory.c:166-186 | unmaps exactly the range, or its first n pages before the panic, and nothing when the end wraps around; with do_free exactly their frames go to the free list |
| VirtualMemory.Memory.MapThenUnmap | src/core/virtual_memory.c:115-186 | uvmunmap on the pages that uvm_map mapped never panics, and every translation of every directory is back if and only if the range ends below 2^64 |
| VirtualMemory.Memory.CopyOut | src/core/virtual_memory.c:286-333 | for every address: each byte goes to its offset in the frame of its page, frame 0 for an unmapped one, and the last to arrive stays; no other byte of any frame changes; it returns if and only if as many frames are free as tables are missing for the range; with private frames and 48-bit addresses it is a flat write, and the range reads back if and only if all of it was mapped |
| VirtualMemory.ZeroIsUnmapped | src/core/virtual_memory.c:269-273 | a page has frame 0 if and only if it is not mapped, so what copyout leaves in frame 0 are exactly the bytes for unmapped pages |
| VirtualMemory.Memory.UvmCopy | src/core/virtual_memory.c:144-161 | by the number of free frames alone: null if and only if there is none and nothing to copy, a walk from null if and only if there is none and a page; otherwise the first m pages of the child are copies in new frames, where m is all n if and only if `Frames(n)` frames are free and else the most that fit; the others are missing or mapped to frame 0; page 0 of the parent is overwritten if and only if at most `Frames(n - 1)` are free; nothing else changes |
| VirtualMemory.Memory.CopyPage | src/core/virtual_memory.c:152-158 | one more page of the child is a fresh copy if and only if the frames suffice, and otherwise the child is as before; every other translation and page is kept |
| VirtualMemory.Memory.CopyToNull | src/core/virtual_memory.c:152-158 | without a frame the page goes to address 0, which is page 0 of the parent, and is mapped to frame 0 if the bottom table is there |
| VirtualMemory.Memory.AllocPage | src/core/virtual_memory.c:208-215 | a zeroed page is mapped and nothing else changes, if and only if the page was not mapped and frames for it and the missing tables are free |
| VirtualMemory.CopiedBytes | src/core/virtual_memory.c:144-161 | every byte of the copied pages reads in the child as it did in the parent |
| MemoryExamples.TopPageStays | src/core/virtual_memory.c:115-186 | the last page of the address space stays mapped after uvm_map and uvmunmap |
| MemoryExamples.UnmappedCopyOut | src/core/virtual_memory.c:269-333 | a copy to an unmapped address succeeds and its byte is in frame 0 |
| MemoryExamples.CopyOutWithoutMemory | src/core/virtual_memory.c:269-333 | without a free frame a copy to a fresh directory does not return |
| MemoryExamples.ChildWithoutPage | src/core/virtual_memory.c:144-161 | a copy of one page with too few frames returns a child without that page |
| MemoryExamples.ParentOverwritten | src/core/virtual_memory.c:144-161 | a copy of two pages with too few frames changes a byte of the parent's page 0 |
| ProcInvariant.BootInv | src/core/sched.c:26-28 | the invariant holds at boot |
| ProcSteps.StepKeepsInv | src/core/proc.c:172-414 | a step of any CPU keeps the invariant if and only if it is not a fork that finds a record which another fork has found and not yet made EMBRYO |
| ProcSteps.StepKeepsCore | src/core/proc.c:172-414 | even such a step keeps the locks, places, wakeups and families of processes |
| ProcExamples.TwoCpusOneProcess | src/core/sched.c:104-116 | a run from boot with four CPUs after which two of them execute the same process |
| ProcTheorems.NoTwoCpus | src/core/sched.c:60-102 | in every run without such a collision no process executes on two CPUs at once |
| ProcTheorems.LockHeldAcrossSwitch | src/core/sched.c:93-102 | an executed process that is not RUNNING is about to switch and its CPU holds the table lock, so neither panic of sched is reachable |
| ProcTheorems.TableLockExcludes | src/core/sched.c:30-36 | at most one CPU is between taking and releasing the table lock, across switches |
| ProcTheorems.NobodySleepsOnFreeLock | src/core/sleeplock.c:9-23 | with all spin locks free, nobody sleeps on a free sleep lock unless its releaser is about to call wakeup |
| ProcTheorems.NoParentSleepsOnZombie | src/core/proc.c:194-225 | no process sleeps in wait while it has a zombie child |
| ProcTheorems.WaitDecides | src/core/proc.c:374-414 | in every run, wait goes on to sleep if and only if it has a child and none is a zombie, returns without one if and only if it has no child, and otherwise takes the first zombie child, whose record is then unused and without parent; nothing else changes |
| ProcTheorems.ExitGivesAway | src/core/proc.c:194-225 | after exit the process is a zombie and nobody's parent: its children have the first process as theirs; its parent wakes if it waits, and the first process if it waits and got a zombie; nobody else changes |
| ProcTheorems.ReapedChildIsStopped | src/core/proc.c:389-405 | a record that wait releases is a zombie child of the caller that no CPU executes |
| ProcTheorems.WakeupWakesAll | src/core/proc.c:264-276 | after wakeup nobody sleeps on the lock; those who did are RUNNABLE and nobody else changes |
| ProcTheorems.SpinExcludes | src/core/sleeplock.c:9-23 | two processes never hold the spin lock of the same sleep lock |
| ProcHolders.StepKeepsHeld | src/core/sleeplock.c:9-23 | a step keeps the holders of the sleep locks in order if and only if it does not start a release by a process that does not hold the lock |
| ProcHolders.SleepLockExcludes | src/core/sleeplock.c:9-23 | in every run in which only holders release, a sleep lock has at most one holder, is locked if and only if it has one, and belongs to the process that leaves acquire_sleeplock |
| ProcCalls.CallsDoTheirWork | src/core/proc.c:172-414 | in every run without a collision, a call that has returned has done its work at some step: yield gave up the CPU, acquire found the lock free and took it, release unlocked it and woke exactly its sleepers, wait released a zombie child or found no child, fork made a child ready to run or found or gave back no record, and exit does not return before its process is a zombie |
| ProcCalls.AcquireDecides | src/core/sleeplock.c:9-16 | acquire_sleeplock takes the lock if it is free and otherwise goes on to sleep on it |
| ProcProgress.WaitsOnlyForLocks | src/core/proc.c:172-414 | in every run an executed process inside a call can take its next step if and only if it is not at the table lock or a spin lock that is taken |
| ProcProgress.TableLockComesFree | src/core/sched.c:30-36 | in every run whoever holds the table lock can give it back by its own steps alone, in which no other executed process moves |
| ProcProgress.NoDeadlock | src/core/sleeplock.c:9-23 | in every run a process inside a call can take its next step after some steps of other CPUs, in which it does not move: table and spin locks never wait for each other in a circle |
| ProcProgress.IdleCpuRuns | src/core/sched.c:60-91 | when the table lock is free, an idle CPU can run any RUNNABLE process, and can also give the lock back with nothing changed |
| ShellGrammar.ParseRender | src/user/sh/main.c:336-424 | parsing the bracketed tokens of a tree, followed by nothing or a closing bracket, gives the tree and what follows |
| ShellGrammar.LineGood | src/user/sh/main.c:336-424 | a parsed tree has at most nine words in each command, each a legal word |
| ShellGrammar.AppendIsForgotten | src/user/sh/main.c:362-379 | writing every `>>` as `>` changes the parse of no token sequence, errors included |
| ShellSyntax.ParserIsGrammar | src/user/sh/main.c:336-424 | the token parser accepts tokens with a tree if and only if they are those of a line of the grammar that has this tree: commands of at most nine words with redirections anywhere, blocks in brackets, pipes, trailing `&`, lists |
| ShellSyntax.TextIsGrammar | src/user/sh/main.c:321-424 | the same for the text of a line |
| ShellSyntax.FewestBrackets | src/user/sh/main.c:336-424 | no line with the tree has fewer brackets than the bare one |
| ShellSyntax.BareRoundTrip | src/user/sh/main.c:321-424 | parsing the text of any well-formed tree, with brackets only where they are needed, gives the tree back |
| ShellSyntax.PipeOfTwo | src/user/sh/main.c:351-360 | `ls | cat` is a pipe of two commands |
| ShellText.ScansIffSpelled | src/user/sh/main.c:266-304 | a text scans to tokens if and only if it spells them, with white space in between wherever two would run together |
| ShellParser.ScanText | src/user/sh/main.c:266-304 | scanning the text of tokens gives the tokens back |
| ShellParser.RoundTrip | src/user/sh/main.c:321-424 | parsing the bracketed text of any tree with at most nine words in each command gives the tree back |
| ShellParser.ParsedIsWellFormed | src/user/sh/main.c:321-424 | every line that parses gives such a tree, and parsing its rendering gives it again |
| ShellParser.TwoLinesOneTree | src/user/sh/main.c:362-379 | two different lines with one tree |
| ShellParser.GetToken | src/user/sh/main.c:266-304 | returns the first token of the rest of the line and the position before the others |
| ShellParser.Peek | src/user/sh/main.c:306-314 | skips space without losing a token and looks at the next character |
| ShellParser.ParseRedirects | src/user/sh/main.c:362-379 | collects the redirections in order or fails on a missing file, as the token parser does |
| ShellParser.ParseArgs | src/user/sh/main.c:409-422 | the word loop agrees with the token parser of `ParserIsGrammar`, errors included |
| ShellParser.ParseExecText | src/user/sh/main.c:395-424 | agrees with the token parser |
| ShellParser.ParseBlockText | src/user/sh/main.c:381-393 | agrees with the token parser |
| ShellParser.ParsePipeText | src/user/sh/main.c:351-360 | agrees with the token parser of `ParserIsGrammar`, errors included |
| ShellParser.ParseLineText | src/user/sh/main.c:336-349 | agrees with the token parser |
| ShellParser.ParseCmd | src/user/sh/main.c:321-334 | ends on every line with the tree or the error of the token parser, so with the tree of the grammar if and only if the text is a line of it |
| CircularList.Rotate | src/common/list.c:8-45 | a ring can be read from any of its nodes |
| CircularList.Links.InitListNode | src/common/list.c:3-6 | a ring of one node |
| CircularList.Links.MergeList | src/common/list.c:8-32 | the second ring is put in after the first node of the first one; no other node changes |
| CircularList.Links.DetachFromList | src/common/list.c:34-45 | the node is alone, the others keep their order, and the result is its predecessor or null |
| Arena.BitmapLaws | src/common/bitmap.h:26-44 | setting or clearing a bit of the four cells changes that bit only |
| Arena.RoundDownFindsPage | src/core/arena.c:99-101 | rounding an object address down gives its page, and the object lies within it |
| Arena.FreeFindsSlot | src/core/arena.c:116-119 | the offset computed from an object address gives its slot |
| Arena.SlotsDisjoint | src/core/arena.c:81 | objects in different slots never overlap |
| Arena.FindFree | src/core/arena.c:79-87 | finds the first clear bit of a page that is not full |
| Arena.Arena.constructor | src/core/arena.c:5-18 | an empty arena, for any object size from 16 to 4032 |
| Arena.Arena.AddPage | src/core/arena.c:48-67 | the new page is first and holds no object |
| Arena.Arena.TakeFromHead | src/core/arena.c:77-93 | takes a free slot of the first page; the pages with room still come first |
| Arena.Arena.AllocObject | src/core/arena.c:69-97 | a page is requested if and only if every slot of every page is in use; the object is a slot that was free; the counts are the numbers of objects |
| Arena.Arena.FreeObject | src/core/arena.c:110-131 | removes exactly that object; panics if and only if none is at the address |
| Arena.Arena.GiveBack | src/core/arena.c:121-128 | exactly that object goes, and the pages with room come first |
| Arena.Arena.MovePageToHead | src/core/arena.c:103-108 | the page moves to the front and the others keep their order, and pages with room come first again |
| SdQueue.BufQueue.Push | src/driver/buf.c:10-20 | appends; the links lead through the contents if and only if the last buffer is not queued a second time further ahead with another one behind it |
| SdQueue.LostBuffer | src/driver/buf.c:10-20 | a buffer that is queued twice makes the next push cut off another one |
| SdQueue.BufQueue.Pop | src/driver/buf.c:21-32 | removes the first one; panics if and only if there is none |
| SdQueue.BufQueue.Front | src/driver/buf.c:36-40 | the first one; panics if and only if there is none |
| SdQueue.BufQueue.Empty | src/driver/buf.c:46-48 | whether there is none |
| SdQueue.Driver.Fill | src/fs/block_device.c:4-18 | a caller may fill a buffer that is neither queued nor waited for |
| SdQueue.Driver.Sdrw | src/driver/sd.c:656-683 | queues a request for the block of the buffer, a write of its data if and only if the dirty bit is set, and starts it if and only if it is alone; returns before it takes effect if and only if the buffer is valid and not dirty; the driver stays valid if and only if the buffer was neither queued nor waited for |
| SdQueue.EarlyReturn | src/driver/sd.c:656-683 | on one clean buffer sdrw returns with its read pending and other data than the disk has |
| SdQueue.LastWriteIsRead | src/driver/sd.c:594-649 | after any requests a block that one of them wrote reads as the last of those writes |
| SdQueue.UnwrittenIsRead | src/driver/sd.c:594-649 | and a block that none of them wrote reads as before |
| SdQueue.Driver.Resume | src/driver/sd.c:677-682 | a woken caller returns if and only if no request of its buffer is left to complete |
| SdQueue.Driver.SdIntr | src/driver/sd.c:594-649 | panics if and only if the interrupt is not that of the command at work; otherwise completes the oldest request once, in call order: a write puts its data in its block and changes no other block, a read changes no block and got what the earlier requests left; the next one is started |
| Console.TakeIsPrefix | src/core/console.c:143-165 | a read delivers the committed characters in order, without the end-of-file mark it consumes, and sleeps only when none is left |
| Console.TakeStops | src/core/console.c:143-165 | a read that returns is full, ends with a newline, or is at an end-of-file mark |
| Console.Console.Intr | src/core/console.c:183-212 | for each character: ^U empties the line, ^H and rubout take its last character, ^P, NUL and a full ring leave it, any other is added, with return as newline, and a newline, ^D or a full ring commits the line; committed characters are never changed; readers are woken if and only if a line is committed |
| Console.TypedInOrder | src/core/console.c:182-213 | typing characters one call after the other is typing them in one call |
| Console.Console.KillLine | src/core/console.c:188-193 | the whole uncommitted line goes, since it holds no newline |
| Console.Console.Put | src/core/console.c:202-210 | the character is added, and the line is committed on a newline, an end-of-file mark or a full ring |
| Console.Console.ConsoleIntr | src/core/console.c:182-213 | all characters before 0xff take effect in order |
| Console.Console.ReadSome | src/core/console.c:139-170 | what is delivered over a whole run is the committed stream in order without consumed end-of-file marks; where the input ends it sleeps, or returns -1 if the killed flag is set, which nothing sets |

## Left out

- src/fs/ocache.c: an older copy of the cache without the partition offset.
- SD card commands, clocks and registers, uart, mailbox, GPIO, interrupts, assembly and boot code: device registers and timing.
- exec, the system calls and their argument checks: plumbing over the layers modelled here.
- Containers and nested schedulers: the process machine has the root scheduler only.
- src/core/physical_memory.c, src/common/format.c, src/common/rc.c: used by contract (a fresh zeroed page, a count).
- src/user/mkfs/main.c: a consistent image is assumed at mount.
- Sync without an operation context, which the interface warns about.
- Memory ordering of spin locks: taking and releasing one are atomic steps.
- Path lookup (namex), its missing inode_put on a failed lookup, and file descriptors.
- vm_free, which leaves bottom tables allocated, and uvm_alloc and uvm_dealloc, whose results differ from their comments.
- nulterminate and the fixed pool of malloc1 in the shell: parsing is modelled as if the pool were large enough.
- Wrap-around of 64-bit indices in the console and of block numbers in the cache.
- Loading a block in cache_acquire after the cache lock is dropped, and waiting for its sleep lock: acquire is one step on a block that nobody holds.
- A sector write that is torn by a crash: a single-sector write is atomic.
- Two CPUs that execute one process share its position in the model, so a run is not followed further once that has happened.
- BlockCache.BlockCache.Acquire: does not model waiting for a block that another thread holds.
- BlockCache.BlockCache.Release: the holder has synced what it changed.
- BlockCache.BlockCache.Bzero: every holder of a cached block is flagged as acquired, so that no held block is evicted.
- BlockCache.BlockCache.EndOp: when the last operation of a group ends, the blocks of the log are free and every holder of another block is flagged as acquired.
- BlockCache.BlockCache.WriteLog: the same.
- BlockCache.BlockCache.InstallTrans: the same.
- BlockCache.BlockCache.Commit: the same while it runs; in the machine itself readers may hold any block during a commit.
- InodeTable.OpenFile.FileWrite: console_write counts in an int, which a count of 2^31 or more would overflow.
- ProcHolders.SleepLockExcludes: two CPUs that execute one process share its position, so for the code it speaks of runs up to such a collision.
- FsRecovery.ConsistentAfterCrash: the transactions of a group take effect one after the other; that operations which interleave their syncs do so in effect is not shown.
- FileSystem.FileSystem.InodeFree: a run of the log in which more than ten blocks are synced is not followed.
- VirtualMemory.Memory.UnmapPage: with do_free, every mapped page has a frame of its own; a frame that is mapped twice would be freed while it is still mapped.
- VirtualMemory.Memory.Uvmunmap: the same.
- VirtualMemory.Memory.CopyOut: what a read through a null pointer gives when a table is missing.
- VirtualMemory.Memory.UvmCopy: every mapped page has a frame of its own, and what a walk from a null directory finds there, which is page 0 of the parent, is not followed.
- Arena.Arena.FreeObject: the address lies behind the header of a page of the arena; any other address is outside what the source checks.
- SdQueue.Driver.Sdrw: what happens after a buffer was queued twice is followed only in the queue. The callers in src/fs/block_device.c use a local buffer with flags 0 or B_DIRTY and B_VALID, so they do not return early and never queue a buffer twice.
