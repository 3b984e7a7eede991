# Verification of a collection of operating-system code

This project models the components of the repository whose correctness is least obvious, and proves
what they keep, in Dafny. `dafny verify dfyconfig.toml` checks all of it.

**The block cache and VM's second level** (`Lab/Lab 8/src/cache.c`, `Lab/Lab 8/src/region.c`).
`BlockCache` is the buffer pool with its array, hash chains and doubly linked LRU chain, pins, dirt,
eviction, and the scattered reader and writer with its shell sort. Devices answer from an arbitrary
script of errors and short counts; once it is used up they work. `CacheSpec` says without pointers
what each operation does, and `Requests` what the devices are asked and what their answers come to.
`CacheCoherence` and `CacheRuns` prove that the two levels together refine a plain disk, `CacheClient`
proves it again of whole programs that run on the pointer structure, and `LruStack` proves the LRU
stack property. `YieldedBlocks` is VM's list, index and counters of yielded blocks, `YieldMemory` the
ownership of physical pages and the bytes in them, and `YieldRuns` any run of requests by any number
of processes. `YieldInterface` holds the one function on which both levels
agree, and `VmCalls` proves that VM's structure does for the cache what that function says. `TwoLevels`
joins `CacheRuns` and `YieldRuns`: every buffer has pages, memory is got when a buffer is first used,
and in runs that mix the cache's steps with any other process's requests VM's real blocks and pages
hold what the cache takes them for.

**Address spaces** (`Lab/Lab 8/src/region.c`). `AddressSpace` is the search for a free range in
32-bit arithmetic, lookup, mapping and unmapping; `ForkSharing` is a table of processes that map,
fault, copy, free and unmap with reference-counted blocks, where any allocation may fail;
`AddressRuns` proves what holds in every state such operations can reach.

**dadfs** (`Lab/Lab 7/dadfs/base.c`). `Dadfs` is a step system: any number of threads create objects
and write files, under three mutexes, in every interleaving. `DadfsOutcomes` says exactly which
creations succeed and what they and the writes leave.

**Three smaller programs.** `Bankers` (`Homework/h5/banker.cpp`), for any number of processes and
resources; `SemaphoreCounter` (`Homework/h4/cthread.c`), for any number of threads and rounds, with
main's creation and joining of them; `ListSort` (`Lab/Lab 5/code/sort.c` and `list.c`), on the linked
nodes themselves.

## Where the code and its descriptions differ

- The report of Lab 8 (`Lab/Lab 8/Lab8 Report.md:97-102`) says that both levels were changed to evict
  the most recently used block. The sources evict the least recently used one
  (`Lab/Lab 8/src/cache.c:185`, `Lab/Lab 8/src/region.c:792-794`); so does the model.
- The comment on map_copy_region (`Lab/Lab 8/src/region.c:1096-1104`) says that it does not increase
  reference counts. The copy calls pb_reference for each page and gives references back when it
  fails, and the consistency check (`Lab/Lab 8/src/region.c:249-275`) holds only if pb_reference
  counts; the model counts.
- A region at address 0 makes the guard page below it wrap, and the search may then offer an occupied
  range (`AddressSpace.MisledExactly` and `HintedRangeExact` say exactly when,
  `AddressSpace.MisledExample` shows one). A hint equal to minv makes VM panic
  (`AddressSpace.PanicExactly`, `PanicExample`); with both 0 the search may ignore its limit
  (`AddressSpace.LimitKeptExactly` says exactly when, `AddressSpace.LimitExample` shows one).
- A get that meets an unmapped page after others have moved leaves pages with two owners
  (`YieldedBlocks.Vm.GetBlock` says exactly when, `YieldMemory.PartialGetExample` shows one). A
  failed map_proc_copy_from empties a destination that had regions of its own
  (`ForkSharing.Vm.CopyProcFrom`).
- int_inc and int_dec sort a list whatever its arrangement only if its differences fit in an int
  (`ListSort.CloseExactly`).

## Premises

- Cache: a device answers with an error or with no more bytes than it was asked for; NO_BLOCK and
  NO_DEV are 0 and dev is not NO_DEV; a buffer got with NO_READ is overwritten as a whole before it
  is released, and written buffers are marked dirty; the coherence results (`CacheRuns`,
  `CacheClient`) are about working devices, while the pool invariant and the contracts of the
  scattered reader and writer hold for every script of answers; blocks to be read ahead are distinct,
  in use, nameless and not cached.
- Yielded blocks: getblock's pages are mapped once, so map_clone_ph_block is not called. For the cache
  (`VmCalls`, `TwoLevels`) device and block numbers fit in 32 bits, and a block's contents are pages.
- Two levels: the buffers lie in disjoint pages, which only the cache maps, unmaps or writes, and no
  other process's get stops halfway (`YieldRuns.OneOwnerExactly` says what happens if one does).
- Address spaces: bounds are page-aligned and regions lie below VM_DATATOP; regions start at
  or above the first page in the states of `ForkSharing` and `AddressRuns`, which a map keeps exactly
  if 0 is not answered (`ForkSharing.Vm.Map`); single searches may meet a region at 0.
- dadfs: no lock wait is interrupted, names are not repeated, free blocks have numbers from 3 to 30
  because the bitmap is tested with an int shift (a scan that finds none goes on to shifts by 32 and
  more, undefined for an int, which the model takes to find none), the records of a directory fit its
  block, and the start is a consistent state (`Dadfs.AtRest`).
- Banker: 0 <= R <= M.

## Model

| member | source | states |
|---|---|---|
| BufferPool.BypassRemoves | Lab/Lab 8/src/cache.c:537-548 | making the neighbours of a buffer point past it turns a well-linked LRU chain into the well-linked chain without that buffer, front and rear included |
| BufferPool.PushedFront | Lab/Lab 8/src/cache.c:316-322 | linking a free buffer before the front gives the doubly linked chain with it first |
| BufferPool.PushedBack | Lab/Lab 8/src/cache.c:328-334 | linking a free buffer after the rear gives the doubly linked chain with it last |
| BufferPool.OneChain | Lab/Lab 8/src/cache.c:166-182 | no buffer is on two hash chains, so a search of the chain of its number is enough |
| BufferPool.Unhashed | Lab/Lab 8/src/cache.c:211-224 | pointing past a buffer takes exactly it off its hash chain and leaves the other chains alone |
| BufferPool.Hashed | Lab/Lab 8/src/cache.c:241-248 | a renamed buffer pushed on the chain of its new number is on exactly that chain |
| BlockCache.Cache.constructor | Lab/Lab 8/src/cache.c:634-652 | a new pool satisfies the whole pool invariant: all buffers free, nameless, on the LRU chain in order and on the chain of NO_BLOCK |
| BlockCache.Cache.RmLru | Lab/Lab 8/src/cache.c:531-549 | one buffer leaves the LRU chain, the order of the others and every hash chain are kept, bufs_in_use goes up by one |
| BlockCache.Cache.PutBlock | Lab/Lab 8/src/cache.c:292-336 | keeps the pool invariant; only the last release puts the buffer on the chain, at the front for DEV_RAM or ONE_SHOT and at the rear otherwise; NULL is ignored |
| BlockCache.Cache.FindInHash | Lab/Lab 8/src/cache.c:166-182 | finds a buffer of the block exactly if some buffer of the pool holds it, although one chain is searched |
| BlockCache.Cache.TakeOldest | Lab/Lab 8/src/cache.c:185-201 | the victim is the front of the chain if memory can be had for it, else the first on the chain that has memory, else there is none (the panics) |
| BlockCache.Cache.Unhash | Lab/Lab 8/src/cache.c:211-224 | the victim, and only it, leaves its hash chain; the loop terminates |
| BlockCache.Cache.Rename | Lab/Lab 8/src/cache.c:241-248 | the victim is clean, counted once more and on the chain of its new number |
| BlockCache.Cache.BatchLength | Lab/Lab 8/src/cache.c:469-474 | the batch is the longest run of consecutive blocks of at most NR_IOREQS buffers, and never empty |
| Requests.RunIsLongest | Lab/Lab 8/src/cache.c:469-474 | that run is the only one such |
| BlockCache.Cache.Scatter | Lab/Lab 8/src/cache.c:475-479 | one transfer puts every acknowledged buffer on the disk at its own block number and touches no block outside the batch |
| BlockCache.Cache.CleanAcked | Lab/Lab 8/src/cache.c:488-505 | exactly as many buffers become clean as whole blocks were acknowledged |
| BlockCache.Cache.MarkWritten | Lab/Lab 8/src/cache.c:488-505 | acknowledged buffers become clean; if none is, the first loses its device and VM forgets its blocks |
| BlockCache.Cache.WriteBatch | Lab/Lab 8/src/cache.c:468-525 | for any device answer the batch extends what is written by its acknowledged prefix, or ends the write with one buffer invalidated |
| BlockCache.Cache.WriteScattered | Lab/Lab 8/src/cache.c:468-525 | terminates for every sequence of answers; the cleaned buffers are a prefix of the queue, at most the next is invalidated, the rest stay dirty; how many, and which answers are used up, is what longest run after longest run makes of the answers |
| Requests.WriteStops | Lab/Lab 8/src/cache.c:464-507 | whatever the answers, a write ends early exactly at the first answer for less than a block, and asks nothing after it |
| Requests.WorkingWrites | Lab/Lab 8/src/cache.c:464-507 | a working device takes the whole queue |
| CacheSpec.FlushPartly | Lab/Lab 8/src/cache.c:488-505 | a device that gives up costs exactly one buffer its identity: the dirty blocks below it are on the disk and clean, those above it are as they were |
| BlockCache.Cache.RwScatteredWriting | Lab/Lab 8/src/cache.c:447-525 | the queue is permuted into increasing block order and written as above |
| BlockCache.Cache.CollectDirty | Lab/Lab 8/src/cache.c:416-420 | lists exactly the dirty buffers of the device, each once |
| BlockCache.Cache.FlushDev | Lab/Lab 8/src/cache.c:397-423 | what is written is the sorted list of exactly the dirty buffers of the device; the chains are untouched |
| BlockCache.Cache.Detach | Lab/Lab 8/src/cache.c:208-224 | the victim is on no chain and every other buffer is still on both of its chains |
| BlockCache.Cache.FlushVictim | Lab/Lab 8/src/cache.c:229-238 | a dirty victim is flushed with its whole device; the name given to VM is the one left after the flush |
| BlockCache.Cache.ReadBlock | Lab/Lab 8/src/cache.c:341-375 | one answer of the device is used; a full read delivers the disk's contents; an error or short read invalidates the buffer and is reported |
| BlockCache.Cache.Fetch | Lab/Lab 8/src/cache.c:252-282 | the renamed buffer is filled from VM, else from the disk unless prefetching, in which case it loses its device; NO_READ makes VM forget the block; the device is asked only for a wanted block that VM does not deliver |
| BlockCache.Cache.Replace | Lab/Lab 8/src/cache.c:208-286 | evicting a victim and filling it keeps the pool invariant and does what eviction, flush, rename and fetch do in that order |
| BlockCache.Cache.GetBlock | Lab/Lab 8/src/cache.c:128-287 | keeps the pool invariant; a hit uses the one buffer that holds the block, a miss replaces the victim; NULL stands for the panics; the devices are asked for the victim's flush and at most one block |
| BlockCache.Cache.Invalidate | Lab/Lab 8/src/cache.c:380-392 | exactly the buffers of the device lose it, contents and chains stay, VM forgets its blocks |
| BlockCache.Cache.FlushAll | Lab/Lab 8/src/cache.c:665-671 | whatever the devices answer: each buffer valid and dirty at its turn has its device flushed, and what is dirty in the end is on a device that gave up when flushed for that buffer; on working devices nothing valid is dirty |
| Requests.StillDirty | Lab/Lab 8/src/cache.c:668-670 | that a buffer still dirty was dirty at its turn, on the same device, and that flush was incomplete |
| BlockCache.Cache.Gather | Lab/Lab 8/src/cache.c:475-477 | one answer is used, and the prefix of the batch it acknowledges receives each its own block of the disk; buffers outside the queue are untouched |
| BlockCache.Cache.GatherFront | Lab/Lab 8/src/cache.c:469-497 | the request is for the longest leading run of the queue; on a working device all of it arrives |
| BlockCache.Cache.PutQueue | Lab/Lab 8/src/cache.c:498-516 | every buffer of the queue is released once and the filled ones become valid |
| BlockCache.Cache.RwScatteredReading | Lab/Lab 8/src/cache.c:447-525 | the sorted queue's longest leading run is asked for; as many buffers as the answer has whole blocks, on a working device all of the run, become valid with the disk's contents, the others stay nameless, and each is released once |
| CacheSpec.ReadBackOrder | Lab/Lab 8/src/cache.c:498-516 | blocks read ahead become the last to be evicted, in the order of the queue |
| ShellSort.Sort | Lab/Lab 8/src/cache.c:448-463 | the shell sort with gaps 3g+1 terminates with a permutation of the queue sorted by block number |
| ShellSort.GapPass | Lab/Lab 8/src/cache.c:452-463 | each pass permutes the queue, and the pass with gap 1 sorts it |
| ShellSort.Insert | Lab/Lab 8/src/cache.c:454-462 | moving an element down by swaps keeps the multiset; with gap 1 the sorted prefix grows by one |
| ShellSort.SwapDown | Lab/Lab 8/src/cache.c:455-461 | a swap moves the only possible disorder one place down |
| ShellSort.PermutesPrefix | Lab/Lab 8/src/cache.c:448-463 | what is permuted is the queue's own elements, not what lies beyond it in the array |
| CacheSpec.Scattered | Lab/Lab 8/src/cache.c:475-479 | a scattered write changes no block outside its range, whatever part of it is acknowledged |
| CacheSpec.ScatterLands | Lab/Lab 8/src/cache.c:469-479 | because a batch is consecutive, writing it from the position of its first buffer puts every acknowledged buffer at its own block |
| CacheSpec.BatchWritten | Lab/Lab 8/src/cache.c:468-507 | batch after batch, the written buffers stay written and no other block of the disk changes |
| CacheSpec.FlushCleans | Lab/Lab 8/src/cache.c:397-423 | a completed flush cleans exactly the buffers of the device |
| CacheSpec.FlushNames | Lab/Lab 8/src/cache.c:484-497 | whatever the device answers, a flush changes only dirt and at most unnames a buffer; names stay unique |
| CacheSpec.ReadBackEffect | Lab/Lab 8/src/cache.c:498-516 | releasing a read queue changes each buffer of it once, as told by how many were filled, and no other |
| CacheSpec.PutPlaces | Lab/Lab 8/src/cache.c:306-335 | the last release makes a buffer the next to be evicted exactly if it is for DEV_RAM or ONE_SHOT or the chain was empty, else the last; the others keep their order |
| CacheSpec.FirstWithDataExact | Lab/Lab 8/src/cache.c:187-201 | without new memory the victim is the first buffer of the chain that has some, none exactly if none has |
| CacheSpec.InvalidatedGone | Lab/Lab 8/src/cache.c:380-392 | afterwards neither level has a block of the device, and other blocks are held as before |
| CacheSpec.FetchedShape | Lab/Lab 8/src/cache.c:252-286 | filling the renamed buffer touches its contents and device and VM, nothing else |
| CacheCoherence.OnlyCounts | Lab/Lab 8/src/cache.c:306-335 | pins, LRU order and memory are invisible to what the cache stands for |
| CacheCoherence.FlushCoherent | Lab/Lab 8/src/cache.c:397-423 | a flush keeps the disk the cache stands for, and the yielded copies equal to the real disk |
| CacheCoherence.EvictCoherent | Lab/Lab 8/src/cache.c:229-238 | after eviction's flush the victim is clean, so dropping it loses nothing |
| CacheCoherence.RenameCoherent | Lab/Lab 8/src/cache.c:235-248 | giving a clean victim a new identity keeps coherence if VM holds nothing but copies of the disk of blocks no buffer holds |
| CacheCoherence.RefillCoherent | Lab/Lab 8/src/cache.c:252-286 | fetching through VM or the disk delivers the ideal contents, and leaves no block in both levels |
| CacheCoherence.GetCoherent | Lab/Lab 8/src/cache.c:128-287 | lmfs_get_block does not change the ideal disk, and a NORMAL get returns its contents |
| CacheCoherence.MissDelivers | Lab/Lab 8/src/cache.c:226-286 | for all answers of all devices: a buffer renamed to a block is valid after the get exactly if VM had the block, the disk delivered it to a NORMAL get, or the get was NO_READ; its contents are VM's if VM had it, else the disk's |
| CacheCoherence.MissYields | Lab/Lab 8/src/cache.c:229-268 | VM loses exactly the block wanted, and gains exactly the victim's if that was valid and VM was asked and accepted |
| CacheCoherence.ReadsExactly | Lab/Lab 8/src/cache.c:252-275 | the disk is asked for the block exactly if the get is NORMAL and neither level has it |
| CacheCoherence.PrefetchExactly | Lab/Lab 8/src/cache.c:252-270 | a PREFETCH get returns a valid buffer exactly if one of the levels had the block; then it has the ideal contents, and otherwise no buffer holds the block |
| CacheRuns.WriteCoherent | Lab/Lab 8/src/cache.c:96-100 | an owner's write that marks the buffer dirty is a write of the ideal disk |
| CacheRuns.InvalidateCoherent | Lab/Lab 8/src/cache.c:380-392 | invalidating a device leaves what the real disk has, and everything else as it was |
| CacheRuns.ReadShapeCoherent | Lab/Lab 8/src/cache.c:498-516 | read-ahead of blocks that neither level has keeps coherence |
| CacheRuns.StepCoherent | Lab/Lab 8/src/cache.c:128-526 | every operation of the two-level cache keeps it coherent with the ideal disk |
| CacheRuns.RunCoherent | Lab/Lab 8/src/cache.c:128-526 | so does every run from a fresh pool |
| CacheRuns.LevelsExclusive | Lab/Lab 8/src/cache.c:229-286 | in every reachable state no block is validly buffered twice, or both buffered and yielded, and every yielded copy equals the disk |
| CacheRuns.GetReturnsLastWritten | Lab/Lab 8/src/cache.c:128-287 | in every run a NORMAL get returns the last contents written, whatever was evicted, yielded, fetched back, flushed, prefetched or reclaimed in between |
| CacheRuns.PrefetchServed | Lab/Lab 8/src/cache.c:252-270 | the same in every state of every run |
| CacheRuns.SyncedDisk | Lab/Lab 8/src/cache.c:665-671 | once nothing is dirty or pending, the real disk holds the last contents written |
| CacheClient.GetCounts | Lab/Lab 8/src/cache.c:170-172 | a get takes exactly one buffer into use |
| CacheClient.Read | Lab/Lab 8/src/cache.c:128-336 | a get and a put on the real cache structure return the ideal disk's contents and leave the cache standing for the same disk |
| CacheClient.Write | Lab/Lab 8/src/cache.c:128-336 | a NO_READ get, a full overwrite and a put make the cache stand for the disk with that block written |
| CacheClient.Sync | Lab/Lab 8/src/cache.c:665-671 | after lmfs_flushall the real disk is the ideal one, block for block |
| CacheClient.Run | Lab/Lab 8/src/cache.c:128-336 | any program of reads, whole-block writes, flushes, prefetches, unmounts and reclaims, run on the pointer structure, gets the answers of a plain disk |
| CacheClient.Prefetch | Lab/Lab 8/src/cache.c:253-270 | a PREFETCH get and put change nothing a reader can see; the pool has the block afterwards exactly if one of the levels had it |
| CacheClient.Drop | Lab/Lab 8/src/cache.c:380-392 | flushing and then invalidating a device changes nothing a reader can see |
| CacheClient.Reclaimed | Lab/Lab 8/src/region.c:785-799 | nor does VM's taking blocks away |
| CacheClient.Start | Lab/Lab 8/src/cache.c:603-653 | a pool just built stands for what is on the disks |
| LruStack.AccessOrder | Lab/Lab 8/src/cache.c:166-248 | one access moves the block's name to the rear of the order, pushing out the front if it is new |
| LruStack.HeldIffRecent | Lab/Lab 8/src/cache.c:306-335 | a block is cached if and only if it is among the most recently used distinct blocks that fit |
| LruStack.StackProperty | Lab/Lab 8/src/cache.c:166-335 | after any accesses the pool holds exactly the nr_bufs most recently used distinct blocks, oldest first |
| LruStack.HitIffRecent | Lab/Lab 8/src/cache.c:166-182 | the n-th access of any trace hits if and only if its block is among the most recent that fit |
| LruStack.LargerPoolHits | Lab/Lab 8/src/cache.c:166-335 | on the same trace a larger pool hits wherever a smaller one does |
| YieldMemory.ScanYieldable | Lab/Lab 8/src/region.c:1715-1740 | yieldblock's scan succeeds exactly on mapped, anonymous, once-mapped pages in contiguous frames |
| YieldMemory.ContiguousFrames | Lab/Lab 8/src/region.c:1731-1736 | the contiguity check is what makes the frames of the pages one range, so that a node need record only its first |
| YieldMemory.FramesExchanged | Lab/Lab 8/src/region.c:1763-1779 | giving the pages new frames exchanges their old frames for the new ones and leaves every other frame's owner |
| YieldMemory.YieldConserves | Lab/Lab 8/src/region.c:1742-1779 | a yield keeps exactly one owner for every physical page |
| YieldMemory.GetConserves | Lab/Lab 8/src/region.c:1659-1687 | a successful get keeps exactly one owner for every physical page |
| YieldMemory.PartialGetConserves | Lab/Lab 8/src/region.c:1661-1667 | a get stopped after some pages keeps single ownership if and only if it had moved none |
| YieldMemory.PartialGetExample | Lab/Lab 8/src/region.c:1661-1667 | one such get: a block of two frames, page 0 mapped and page 1 not; frame 1 ends with two owners |
| YieldMemory.FreeConserves | Lab/Lab 8/src/region.c:772-774 | freeing a node returns exactly its pages to the free pool |
| YieldMemory.OldestConserve | Lab/Lab 8/src/region.c:792-796 | freeing any number of the oldest nodes keeps exactly one owner for every physical page |
| YieldMemory.OwnedConserve | Lab/Lab 8/src/region.c:699-719 | freeing all nodes of one process does, too |
| YieldMemory.YieldContents | Lab/Lab 8/src/region.c:1742-1779 | after a yield the node holds what the process's pages held, the pages are clear, what VM holds for any process under any other id is untouched, and so is every other mapped page of any process |
| YieldMemory.GetContents | Lab/Lab 8/src/region.c:1659-1687 | a get delivers page by page what the node held; what VM holds for any process under any other id, and every other mapped page of any process, is untouched |
| YieldMemory.YieldKeepsPages | Lab/Lab 8/src/region.c:1742-1779 | a mapped page that the yield does not name keeps its block, its mapping and its bytes |
| YieldMemory.GetKeepsPages | Lab/Lab 8/src/region.c:1659-1687 | so does one that a successful get does not name |
| YieldedBlocks.Vm.constructor | Lab/Lab 8/src/region.c:54-61 | before the first request nothing is yielded, the structure is valid, and every page is in a phys block or free |
| YieldedBlocks.IdsDistinct | Lab/Lab 8/src/region.c:678-685 | two blocks in the index never share an id |
| YieldedBlocks.Vm.IdsApart | Lab/Lab 8/src/region.c:1702-1711 | so a valid structure never lists an id twice |
| YieldedBlocks.IndexInsert | Lab/Lab 8/src/region.c:1783-1784 | an ordered insertion into the bucket of its hash keeps index, list and ids in agreement |
| YieldedBlocks.IndexRemove | Lab/Lab 8/src/region.c:764-766 | so does removing a block from its bucket and from the list |
| YieldedBlocks.Vm.Search | Lab/Lab 8/src/region.c:1648-1651 | finds the block with that id exactly if the list has one |
| YieldedBlocks.Vm.Unlink | Lab/Lab 8/src/region.c:737-756 | the neighbours, or the list's ends, point past the block; the doubly linked list is the old one without it |
| YieldedBlocks.Vm.FreeNode | Lab/Lab 8/src/region.c:725-780 | the block leaves list, index and its process's counter together; freed with its memory, its frames become free and every page still has one owner |
| YieldedBlocks.Vm.FreeYielded | Lab/Lab 8/src/region.c:785-799 | terminates having freed exactly the min(length, ceil(max_bytes/page)) oldest blocks, reports a page for each, and keeps one owner for every page |
| YieldedBlocks.OldestIs | Lab/Lab 8/src/region.c:792-796 | how many that is: no more than there are, and just enough for max_bytes otherwise |
| YieldedBlocks.Vm.FreeInBucket | Lab/Lab 8/src/region.c:700-718 | restarting the iterator after each removal misses no block of the process in the bucket |
| YieldedBlocks.Vm.FreeYieldedProc | Lab/Lab 8/src/region.c:691-722 | every block of the process and no other is freed, its counter is 0 although buckets are skipped once the counter reaches 0, and every page keeps one owner |
| YieldedBlocks.Vm.Scan | Lab/Lab 8/src/region.c:1715-1740 | answers the error of the first page refused, or success for all |
| YieldedBlocks.Vm.YieldBlock | Lab/Lab 8/src/region.c:1692-1807 | every refusal leaves the state as it was; a success appends the block as the youngest and keeps list, index and counters; either way every page keeps one owner |
| YieldedBlocks.VerdictExact | Lab/Lab 8/src/region.c:1702-1760 | a block is taken exactly if VM has none under its id, its pages are whole, mapped, anonymous, mapped once and contiguous, and memory and frames are granted |
| YieldedBlocks.Vm.TakeFrames | Lab/Lab 8/src/region.c:1661-1684 | the pages get the block's frames one by one and free their own, up to the first that is not mapped |
| YieldedBlocks.Vm.GetBlock | Lab/Lab 8/src/region.c:1635-1690 | answers ESRCH, EFAULT, EINVAL, a panic or success as the block, the pages and the address warrant; every page keeps one owner if and only if not this: VM has the block in that size, the first page is mapped and some other is not |
| YieldedBlocks.GetOwnership | Lab/Lab 8/src/region.c:1653-1687 | that condition, for any state of memory and any list of blocks |
| YieldedBlocks.Vm.ForgetBlock | Lab/Lab 8/src/region.c:1832-1858 | frees the caller's block with that id, if there is one, and nothing else; every page keeps one owner |
| YieldedBlocks.Vm.ForgetBlocks | Lab/Lab 8/src/region.c:1812-1827 | frees the caller's blocks and nothing else; every page keeps one owner |
| YieldedBlocks.Vm.YieldGet | Lab/Lab 8/src/region.c:1863-1905 | refuses bad lengths; otherwise the yield, which may fail silently, is followed by the get, whose answer is returned; every page keeps one owner unless, and only unless, the get stops halfway |
| YieldedBlocks.FreedConserved | Lab/Lab 8/src/region.c:770-774 | freeing a block with its memory keeps one owner for every page |
| YieldRuns.CombinedRefines | Lab/Lab 8/src/region.c:1889-1904 | on mapped pages the two halves of a request do to ids and contents, of all processes at once, exactly what the interface function says, and answer success exactly if it delivers |
| YieldRuns.UnfitDoesNothing | Lab/Lab 8/src/region.c:1881-1904 | any other request, unless it stops halfway, changes nothing at all |
| YieldRuns.StepConserves | Lab/Lab 8/src/region.c:725-799 | every request to VM, and every step of a process on its own memory, keeps one owner for every page, except exactly a get that stops halfway |
| YieldRuns.StepStore | Lab/Lab 8/src/region.c:1692-1858 | what VM holds after a request, for every process, is what the request makes of what it held before |
| YieldRuns.OneOwnerExactly | Lab/Lab 8/src/region.c:1635-1807 | in every state of a run every physical page has one owner, if and only if no get of the run stopped halfway |
| YieldRuns.StepKeepsPages | Lab/Lab 8/src/region.c:1635-1858 | whatever the request and the answer, a mapped page of any process keeps its mapping and its bytes unless the request names it |
| YieldRuns.RunStore | Lab/Lab 8/src/region.c:1635-1807 | in every state of a run the yielded blocks and their bytes are those that the requests so far make of an empty store |
| YieldRuns.GetReturnsYielded | Lab/Lab 8/src/region.c:1635-1807 | a block yielded and neither delivered nor freed since is delivered on request, and the pages then hold what they held when it was yielded, whatever any process did in between |
| YieldRuns.Serve | Lab/Lab 8/src/region.c:1863-1905 | a request served on the linked structure is a step of those runs |
| YieldRuns.ServeAll | Lab/Lab 8/src/region.c:1863-1905 | any sequence of requests served on it is a run, as long as no page is shared |
| VmCalls.StartMirrors | Lab/Lab 8/src/region.c:54-61 | at its start VM holds nothing for the cache |
| VmCalls.YieldGetMirrors | Lab/Lab 8/src/cache.c:252-268 | vm_yield_block_get_block does to VM's blocks and to the buffer's pages what the cache's model says it does to `vm` and to the buffer, whose pages hold its contents in every state of `TwoLevels` |
| VmCalls.ForgetMirrors | Lab/Lab 8/src/cache.c:278-280 | vm_forgetblock is `vm` without that block |
| VmCalls.ForgetAllMirrors | Lab/Lab 8/src/cache.c:391 | vm_forgetblocks is the empty `vm` |
| VmCalls.ReclaimMirrors | Lab/Lab 8/src/region.c:785-799 | free_yielded takes some of the cache's blocks from `vm`, those among the oldest, and changes none |
| VmCalls.ForeignMirrors | Lab/Lab 8/src/region.c:1863-1905 | what other processes ask of VM, and what any process does to its own pages, leaves `vm` alone; that it leaves the buffers' pages alone is TwoLevels.OtherJoined |
| VmCalls.YieldBlockGetBlock | Lab/Lab 8/src/region.c:1863-1905 | the call on the linked structure answers as the interface function does on the cache's own view |
| VmCalls.ForgetBlock | Lab/Lab 8/src/region.c:1832-1858 | so does forgetting one block |
| VmCalls.ForgetBlocks | Lab/Lab 8/src/region.c:1812-1827 | so does forgetting all of them |
| VmCalls.FreeMemory | Lab/Lab 8/src/region.c:785-799 | and so does VM's running out of memory |
| TwoLevels.FillHolds | Lab/Lab 8/src/cache.c:341-375 | what is read or written into a buffer is then in the buffer's own pages; no other page and no yielded block changes |
| TwoLevels.MapHolds | Lab/Lab 8/src/cache.c:187-201 | memory got for a buffer consists of cleared pages of its own, taken from no page and no yielded block |
| TwoLevels.CallJoined | Lab/Lab 8/src/cache.c:252-268 | vm_yield_block_get_block on VM's real blocks and pages agrees with the cache's view of them, and spares every other buffer's pages |
| TwoLevels.MissJoined | Lab/Lab 8/src/cache.c:185-286 | a miss keeps VM's blocks and all buffers' pages what the cache takes them for, from the victim's memory to the last byte read |
| TwoLevels.ReadAheadJoined | Lab/Lab 8/src/cache.c:498-516 | so does reading ahead into many buffers |
| TwoLevels.OtherJoined | Lab/Lab 8/src/region.c:1863-1905 | so does any request of another process, and anything done to pages that are no buffer's |
| TwoLevels.StepJoined | Lab/Lab 8/src/cache.c:128-526 | so does every step of the cache or of any process |
| TwoLevels.RunJoined | Lab/Lab 8/src/cache.c:128-526 | in every state of every run of both levels, from a new cache without memory, VM's blocks and the buffers' pages are what the cache takes them for |
| TwoLevels.CachePart | Lab/Lab 8/src/cache.c:128-526 | the cache's part of such a run is a run of `CacheRuns`, whatever other processes do in between |
| TwoLevels.RealLevels | Lab/Lab 8/src/cache.c:229-286 | in every reachable state each block VM really holds for the cache is validly buffered nowhere, and its pages hold what the disk has of it; each buffer's pages hold its contents; each physical page has one owner |
| TwoLevels.RealGet | Lab/Lab 8/src/cache.c:128-287 | in every run a NORMAL get leaves the last contents written in the very pages of the buffer it returns, whatever was evicted, yielded, fetched back or reclaimed and whatever other processes asked of VM |
| TwoLevels.RealPrefetch | Lab/Lab 8/src/cache.c:252-270 | in every run a PREFETCH get returns a valid buffer exactly if a buffer, or VM's own list, had the block; its pages then hold the last contents written |
| AddressSpace.SlotGap | Lab/Lab 8/src/region.c:439-459 | every range the search may answer lies in one gap, at or below the gap it starts from |
| AddressSpace.GapBounds | Lab/Lab 8/src/region.c:431-437 | the guard-page arithmetic of a gap does not wrap unless a region at address 0 ends it |
| AddressSpace.GapExact | Lab/Lab 8/src/region.c:422-437 | a gap answers its highest place with a guard page on both sides, else its highest place, and nothing exactly if it has none |
| AddressSpace.DescendExact | Lab/Lab 8/src/region.c:439-464 | searching the gaps from the highest down answers the best range, and fails exactly if there is none |
| AddressSpace.FindRangeExact | Lab/Lab 8/src/region.c:383-475 | the answer is in range, disjoint from every region and in the highest gap that fits, guarded if that fits; failure means no range fits; an empty interval panics |
| AddressSpace.FindRangeAligned | Lab/Lab 8/src/region.c:383-475 | aligned bounds give an aligned range within the limits; with maxv 0 that is exactly minv |
| AddressSpace.MisledExactly | Lab/Lab 8/src/region.c:431-437 | for any limit, a range found is free and fits if and only if not this: a region starts at 0, no range fits, and the interval is wide enough; then an occupied range is offered |
| AddressSpace.MisledBreaks | Lab/Lab 8/src/region.c:595-611 | inserting a range so offered always breaks the order of the regions or the limit of the address space |
| AddressSpace.MisledExample | Lab/Lab 8/src/region.c:431-437 | one region over the first two pages: its second page is offered as free |
| AddressSpace.HintedRangeExact | Lab/Lab 8/src/region.c:480-497 | for every address space and hint the range found fits if and only if no search was misled by a region at 0; failure, exactly if no range fits, nothing was misled and nothing panics |
| AddressSpace.HintedBest | Lab/Lab 8/src/region.c:480-497 | a search that is not misled answers the highest fitting range below the hint, if there is one, else the highest below maxv |
| AddressSpace.PanicExactly | Lab/Lab 8/src/region.c:480-497 | VM panics if and only if the interval is empty or the hint is tried and equals a positive minv |
| AddressSpace.PanicExample | Lab/Lab 8/src/region.c:489-490 | one such search, in an empty address space: hint and minv are one page |
| AddressSpace.LimitKeptExactly | Lab/Lab 8/src/region.c:489-496 | for every address space the range found ends within maxv if and only if not this: hint and minv are 0, the length exceeds maxv, and a range of that length fits at 0 |
| AddressSpace.LimitExample | Lab/Lab 8/src/region.c:489-490 | one such search: two pages below a limit of one page are found at 0 |
| AddressSpace.VmProc.SearchGaps | Lab/Lab 8/src/region.c:439-460 | the iterator loop visits the gaps in descending order and stops at the first that fits |
| AddressSpace.VmProc.FindSlotRange | Lab/Lab 8/src/region.c:383-475 | answers as specified and remembers the end of the range found |
| AddressSpace.VmProc.FindSlot | Lab/Lab 8/src/region.c:480-497 | answers as specified, trying the range below the hint first |
| AddressSpace.VmProc.MapPageRegion | Lab/Lab 8/src/region.c:544-611 | a new region is placed in a free range, and the regions stay aligned, ordered and disjoint, if and only if no region at 0 misled the search; it fails exactly if nothing is found or memory runs out and panics exactly as the search does; a region starts at 0 afterwards exactly if one did or 0 was answered |
| AddressSpace.MapKeepsValid | Lab/Lab 8/src/region.c:595-611 | inserting at the range found keeps the whole address-space invariant if and only if no region at 0 misled the search |
| AddressSpace.MapAdds | Lab/Lab 8/src/region.c:595-611 | a new region adds exactly its own addresses, free before and without pages; every other address keeps its region and page |
| AddressSpace.LookupExact | Lab/Lab 8/src/region.c:849-863 | the single LESS_EQUAL probe finds a region if and only if that region contains the address, and no two do |
| AddressSpace.UnmapKeepsRegular | Lab/Lab 8/src/region.c:1388-1391 | a tail or middle unmap keeps regions ordered and disjoint |
| AddressSpace.UnmapEmptiesRange | Lab/Lab 8/src/region.c:1338-1391 | unmapping empties exactly its range: every other address keeps its page |
| AddressSpace.UnmapShortens | Lab/Lab 8/src/region.c:1380-1391 | addresses leave the region exactly where its end is unmapped |
| ForkSharing.Vm.constructor | Lab/Lab 8/src/region.c:822 | processes without regions and no block in use satisfy the whole invariant |
| ForkSharing.Vm.Map | Lab/Lab 8/src/region.c:544-611 | mapping a region into one process keeps every address space in order and every count right, exactly unless it is mapped at address 0, which no minv from the first page on allows |
| ForkSharing.Vm.MapFirst | Lab/Lab 8/src/region.c:983-1046 | the first fault maps the new block, counted once, at the faulting page's address and nowhere else, whatever process and address one looks at; failures before the page table is written take it back, a failure to write it does not |
| ForkSharing.Vm.Reference | Lab/Lab 8/src/region.c:1124-1126 | a reference adds one page and one count, or changes nothing |
| ForkSharing.Vm.Unreference | Lab/Lab 8/src/region.c:642-649 | a page and its count go; the block with the last of them |
| ForkSharing.Vm.Subfree | Lab/Lab 8/src/region.c:616-652 | exactly the pages of the range go, with exactly their references |
| ForkSharing.Vm.Free | Lab/Lab 8/src/region.c:657-673 | freeing a region gives back exactly its references |
| ForkSharing.Vm.CopyRegion | Lab/Lab 8/src/region.c:1094-1139 | a success is an equal region sharing each block with one more reference per page; a failure at any page restores every count; it fails exactly if an allocation it needs is refused |
| ForkSharing.Vm.FreeProc | Lab/Lab 8/src/region.c:804-830 | in whatever order the tree gives the regions, exactly the process's own references go, and the invariant stays |
| ForkSharing.Vm.CopyProcFrom | Lab/Lab 8/src/region.c:1230-1284 | keeps counts equal to references and all address spaces in order; it fails exactly if an allocation is refused; a failure empties dst, and the counts are what they were exactly if dst had no pages |
| ForkSharing.Vm.CopyProc | Lab/Lab 8/src/region.c:1217-1225 | the child gets the parent's regions, each block one more reference per page of the parent; a failure changes nothing at all |
| ForkSharing.Vm.Unmap | Lab/Lab 8/src/region.c:1338-1391 | refuses bogus lengths; else exactly the range's pages and references go and the invariant stays |
| ForkSharing.ForkAndExit | Lab/Lab 8/src/region.c:804-830 | copying a process and freeing the copy restores every region and every count |
| ForkSharing.SettledUnique | Lab/Lab 8/src/region.c:249-275 | counts that equal the references over all processes are determined by them |
| ForkSharing.RegionLive | Lab/Lab 8/src/region.c:249-275 | what any page refers to is a block in use |
| ForkSharing.InitKeepsCounts | Lab/Lab 8/src/region.c:1222 | emptying the tree of a process keeps the counts right exactly if the process had no pages |
| ForkSharing.Joined | Lab/Lab 8/src/region.c:1247-1258 | copied regions after those of dst stay ordered, aligned and disjoint |
| AddressRuns.StepSane | Lab/Lab 8/src/region.c:249-275 | mapping, first fault, copying, freeing and unmapping each keep all address spaces in order and all counts right |
| AddressRuns.RunSane | Lab/Lab 8/src/region.c:249-275 | so does any run of them from processes without regions |
| AddressRuns.RunDisjoint | Lab/Lab 8/src/region.c:595-611 | in every reachable state the regions of every process are aligned, below VM_DATATOP, in address order and disjoint |
| AddressRuns.RunLookup | Lab/Lab 8/src/region.c:849-863 | in every reachable state the single probe of map_lookup finds the one region containing an address, exactly if there is one |
| AddressRuns.RunCounts | Lab/Lab 8/src/region.c:249-275 | in every reachable state each block is counted as often as pages of all processes refer to it, and is in use exactly if some page does |
| AddressRuns.Do | Lab/Lab 8/src/region.c:544-1391 | every operation on the process table is a step of those runs |
| Dadfs.FreeBlockFound | Lab/Lab 7/dadfs/base.c:132-142 | the scan finds the lowest free block from 3 on, and fails exactly if there is none |
| Dadfs.FindFreeBlock | Lab/Lab 7/dadfs/base.c:132-142 | the scanning loop computes that block |
| Dadfs.InodeSearch | Lab/Lab 7/dadfs/base.c:57-73 | the search loop finds the first slot with the number, comparing the slot after the last too |
| Dadfs.GetInode | Lab/Lab 7/dadfs/base.c:259-267 | the loop copies the first stored inode with the number |
| Dadfs.Lookup | Lab/Lab 7/dadfs/base.c:717-735 | the loop answers the first record with the name |
| Dadfs.MatchIsRecord | Lab/Lab 7/dadfs/base.c:717-735 | that is a record of the directory with that name, and the first one |
| Dadfs.LockStep | Lab/Lab 7/dadfs/base.c:29-39 | each mutex is held by exactly the threads at its steps, hence by one at most |
| Dadfs.SomeThreadMoves | Lab/Lab 7/dadfs/base.c:81-107 | because children, inodes_mgmt and sb are taken in that order, some busy thread can always step |
| Dadfs.AppendSound | Lab/Lab 7/dadfs/base.c:96-100 | appending with the current count gives a number and a block nobody has, and keeps the store sound |
| Dadfs.AppendNumberNew | Lab/Lab 7/dadfs/base.c:581-584 | the number computed from the count differs from that of every stored inode |
| Dadfs.TakeBlockSound | Lab/Lab 7/dadfs/base.c:132-147 | the block taken is marked used and belongs to nobody |
| Dadfs.WriteRecordSound | Lab/Lab 7/dadfs/base.c:618-624 | writing the record after the counted ones changes no lookup in any directory |
| Dadfs.GrowNames | Lab/Lab 7/dadfs/base.c:636 | counting the record makes the directory answer for exactly one more name |
| Dadfs.SaveSlot | Lab/Lab 7/dadfs/base.c:332-347 | the inode in memory goes to its own slot; the save cannot fail |
| Dadfs.SaveSound | Lab/Lab 7/dadfs/base.c:319-354 | saving keeps every number, block and name |
| Dadfs.SharedStep | Lab/Lab 7/dadfs/base.c:545-654 | every step of every thread keeps the store sound, and changes the lookups only by the name a grown directory gains |
| Dadfs.OtherStep | Lab/Lab 7/dadfs/base.c:545-654 | no step of a thread takes from another what it relies on: its count, its block, its record, its name |
| Dadfs.StepKeepsInv | Lab/Lab 7/dadfs/base.c:473-654 | every step of creates and writes in any interleaving keeps the invariant |
| Dadfs.RunSafe | Lab/Lab 7/dadfs/base.c:545-654 | in every state of every run at most 64 inodes, unique numbers, distinct blocks that are not free, and a current count at every append |
| Dadfs.RunNeverStuck | Lab/Lab 7/dadfs/base.c:473-654 | in every state of every run, while a thread is busy some busy thread can step |
| Dadfs.StepProgress | Lab/Lab 7/dadfs/base.c:473-654 | every step brings its operation nearer to its end |
| Dadfs.RunBounded | Lab/Lab 7/dadfs/base.c:473-654 | a run of steps is no longer than the steps left to all operations, whatever the interleaving |
| Dadfs.RunEndsIdle | Lab/Lab 7/dadfs/base.c:473-654 | a run that cannot go on has ended every operation: none hangs and there is no deadlock |
| Dadfs.CreationNames | Lab/Lab 7/dadfs/base.c:618-637 | a creation makes its directory answer for the new name with the inode stored for it, of the mode asked |
| Dadfs.NamesStay | Lab/Lab 7/dadfs/base.c:703-742 | a name a directory once answers for stands for the same stored object ever after, whatever the threads do |
| Dadfs.LookupFindsStored | Lab/Lab 7/dadfs/base.c:674-686 | what a lookup names is in the store, so dadfs_iget never meets a null inode |
| Dadfs.StepKeepsSynced | Lab/Lab 7/dadfs/base.c:319-354 | an inode in memory equals its stored one unless a thread is about to save it |
| DadfsOutcomes.CreationExactly | Lab/Lab 7/dadfs/base.c:545-654 | in any interleaving, once a creation has ended its directory answers for the name if and only if the count read was below 64, the mode proper, memory granted and a block free when scanned; the object is then stored under the number after the count, of that mode, in the lowest free block |
| DadfsOutcomes.OwnUnderway | Lab/Lab 7/dadfs/base.c:545-654 | what a creation has met, at each of its steps |
| DadfsOutcomes.CreateAlone | Lab/Lab 7/dadfs/base.c:545-654 | in a file system at rest a creation ends, and succeeds if and only if there are fewer than 64 objects, a proper mode, memory and a free block |
| DadfsOutcomes.WriteLands | Lab/Lab 7/dadfs/base.c:473-495 | when a write ends, the file has the size written, in memory and in the store, whatever other threads did meanwhile |
| Bankers.OrdersStayWithin | Homework/h5/banker.cpp:36-61 | the exchange argument: no completion order leaves a set in which nothing more can finish |
| Bankers.StuckSetUnique | Homework/h5/banker.cpp:38-55 | the processes that finish, and the resources then available, do not depend on the order of the rows |
| Bankers.GreedyIsExact | Homework/h5/banker.cpp:36-61 | the greedy choice reaches all processes if and only if some completion order does |
| Bankers.Satisfied | Homework/h5/banker.cpp:40-43 | the flag says whether every request of the row can be met |
| Bankers.Finish | Homework/h5/banker.cpp:46-51 | the resources change by what the process held beyond its requests; its row is marked |
| Bankers.Visit | Homework/h5/banker.cpp:39-53 | a process finishes at its turn exactly if it has not and can |
| Bankers.Scan | Homework/h5/banker.cpp:38-54 | a scan that finds nothing proves that nothing can finish; one that does leaves fewer |
| Bankers.Verdict | Homework/h5/banker.cpp:55-58 | the count of remaining processes is 0 exactly for safe states |
| Bankers.SafetyCheck | Homework/h5/banker.cpp:36-61 | terminates with success if and only if a completion order of all processes exists; A is then the initial A plus the sum of M - R |
| SemaphoreCounter.StepValid | Homework/h4/cthread.c:12-19 | every step of any thread keeps mutual exclusion and a count equal to the increments made |
| SemaphoreCounter.AtMostOneInside | Homework/h4/cthread.c:14-18 | in every state of every run at most one thread is between sem_wait and sem_post |
| SemaphoreCounter.SomeoneCanMove | Homework/h4/cthread.c:12-41 | until main has ended some thread or main can step |
| SemaphoreCounter.RunBounded | Homework/h4/cthread.c:12-41 | every run is finite, whatever the scheduler does |
| SemaphoreCounter.ExitsUponError | Homework/h4/cthread.c:23-36 | main exits early exactly if a thread could not be created or joined |
| SemaphoreCounter.FinalCount | Homework/h4/cthread.c:12-41 | a run that cannot go on has, unless it met a thread error, counted exactly T*N, main does not report a short count, and the number of steps is the same for all interleavings |
| ListSort.List.Add | Lab/Lab 5/code/list.c:25-33 | the list is the old one with the node at its end, NULL-terminated |
| ListSort.List.Search | Lab/Lab 5/code/list.c:43-50 | the data of the first node with the key, NULL exactly if there is none |
| ListSort.List.Collect | Lab/Lab 5/code/sort.c:42-48 | the array holds the node pointers in list order |
| ListSort.InsertNext | Lab/Lab 5/code/sort.c:53-59 | the element goes before the run of elements the comparator answers >= 0 for, with the calls counted |
| ListSort.List.Relink | Lab/Lab 5/code/sort.c:61-63 | the links follow the array and end in NULL |
| ListSort.List.Sort | Lab/Lab 5/code/sort.c:40-64 | for any comparator answers, even random ones, the list is NULL-terminated, of the same nodes, in the order insertion gives |
| ListSort.Sorted | Lab/Lab 5/code/sort.c:52-60 | that order is a permutation of the nodes for any comparator |
| ListSort.SortArranges | Lab/Lab 5/code/sort.c:52-60 | under a comparator that orders the data it is sorted, and equal data come in reverse input order because of the >= 0 test |
| ListSort.IntIncExact | Lab/Lab 5/code/sort.c:15-17 | the 32-bit subtraction tells the order of two ints exactly when their difference fits in an int |
| ListSort.IntSorts | Lab/Lab 5/code/sort.c:15-20 | ints whose differences fit come out ascending or descending, equal ones reversed |
| ListSort.StaysBefore | Lab/Lab 5/code/sort.c:52-60 | no insertion changes which of two nodes already in the array comes first |
| ListSort.CloseExactly | Lab/Lab 5/code/sort.c:15-20 | int_inc sorts every arrangement of a list upwards, and int_dec downwards, if and only if all differences in the list fit in an int |
| ListSort.IntPair | Lab/Lab 5/code/sort.c:15-17 | a list of two ints comes out ascending exactly when the difference fits |
| ListSort.StrcmpExact | Lab/Lab 5/code/sort.c:27-32 | strcmp decides the dictionary order, 0 exactly for equal strings |
| ListSort.CharSorts | Lab/Lab 5/code/sort.c:27-32 | strings come out in dictionary order or its reverse, equal ones reversed, without condition |

## Left out

- Device drivers, page-table writes, the slab allocator, message decoding, printing and sanity macros: they are scripted answers, abstract maps, or absent.
- The AVL trees and pb.c are not part of this model: a tree is a sorted sequence, and pb_reference and pb_unreferenced have the contracts that the consistency check at `Lab/Lab 8/src/region.c:249-275` implies.
- map_clone_ph_block, faults on pages already mapped, map_handle_memory, MF_PREALLOC, resizing and the memtype callbacks depend on code that is not shown; the copy event is only a success or a failure.
- BlockCache.Cache.RwScatteredReading: the loop of lmfs_rw_scattered runs once for READING, so reading and writing are two methods; the static I/O vector is not modelled.
- BlockCache.Cache.GetBlock: block numbers are unbounded, so the cast to 32 bits in the test for consecutive blocks is not modelled; NULL stands for both panics.
- BlockCache.Cache.constructor: builds a pool that had no buffers; rebuilding a used pool (fs_sync and freeing), cache_resize and lmfs_set_blocksize are not modelled.
- fs_bufs_heuristic uses system statistics and a square root that is not shown.
- YieldedBlocks.Vm.FreeYielded: the bytes reported are a page per block, as the code reports them, also for blocks of several pages.
- YieldedBlocks.Vm.GetBlock: pages that are mapped more than once are not cloned, since the clone depends on a memtype's fault handler.
- YieldedBlocks.Vm.YieldGet: neither, for the same reason; the endpoint checks that precede it are not modelled.
- YieldRuns.Serve: nor are shared pages cloned for a request served in a run; YieldRuns.ServeAll: nor in a sequence of them.
- BlockCache.Cache.PutQueue: a queue with a buffer that is named, repeated or of a cached block can leave two buffers under one name and is excluded; buffers got with PREFETCH for distinct uncached blocks make no such queue.
- CacheClient.Run: the programs hold one buffer at a time, so reading ahead, which holds many, is only in `CacheRuns`.
- TwoLevels.StepJoined: where alloc_contig puts a buffer is fixed from the start, and devices work, as in `CacheRuns`.
- The identity of regions and pages as objects: AddressSpace and ForkSharing keep them as values in sequences, so pointers held across a change are not modelled.
- AddressSpace.UnmapEmptiesRange: does not speak of an unmap at offset 0, for the reason given next.
- ForkSharing.Vm.Unmap: unmapping at the start of a region and whole regions is left out; the first leaves old offsets in the last pages, the second re-inserts the region under its end address, which may be another region's key.
- ForkSharing.Vm.MapFirst: what the memtype's handler does is only a success or a failure.
- ForkSharing.Vm.CopyProcFrom: the page-table writes at the end, and the width of the reference count, are not modelled.
- ForkSharing.Vm.FreeProc: the yielded blocks it frees as well are those of YieldedBlocks.Vm.FreeYieldedProc.
- get_region_info and the printing functions.
- Dadfs.StepKeepsInv: journal, mount, data transfer, d_add's caches and interrupted locks are left out; starting from mkfs is too, since it leaves blocks in use marked free.
- SemaphoreCounter.FinalCount: the count is unbounded, so T*N must fit in an int.
- The comparators for doubles truncate a difference to int and are no ordering; only `ListSort.List.Sort` speaks of them, as of any comparator. listDestructor only frees.
- Copies of the sort elsewhere, text and CSV files, plugin loading, menus and shell scripts add only input and output.
