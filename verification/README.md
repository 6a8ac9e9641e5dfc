# Memory, storage and scheduling of a teaching x86-64 kernel

This project models the parts of the kernel that keep books: who owns which page, which address is
mapped where, which block is cached, which cluster belongs to which file, and which task runs next.
Each component but the ticket lock, which is a protocol, is written twice: as functions on plain
values that say what an operation computes, and as a class whose methods work in place on the same
fields, lists and loops as the kernel's code and are verified against those functions. The theorems
are about the functions, and hold of every run of operations.

| component | kernel file | functions and theorems | class |
|---|---|---|---|
| physical pages | `src/mm/memdivmer.c`, `src/mm/memarea.c` | `BitMath`, `PageArea`, `PageAreaLaws`, `PageAreaTheorems`, `PageTags`, `PageMount` | `PageAllocator.MemArea` |
| page tables | `src/mm/halmmu.c`, `src/mm/inc/halmmu.h` | `PageTable`, `PageTableLaws`, `PageTableTheorems` | `AddressSpace.MmuDsc` |
| virtual regions | `src/mm/krlvadrsmem.c` | `Regions`, `RegionsTheorems`, `RegionsTraits` | `VirtualMemory.MemSpace` |
| small objects | `src/mm/kmsob.c` | `SmallObjects`, `SmallObjectsLaws`, `SmallObjectsTheorems` | `SmallObjectPools.KmsobMgr` |
| buffer cache | `src/fs/buffer.c` | `BufferPool`, `BufferPoolLaws`, `BufferPoolTheorems` | `BufferCache.BufferDesc` |
| FAT chains and file data | `src/fs/FAT32/fat32.c` | `Fat`, `FatLaws`, `FatTheorems` | `FatVolume.MountedVolume` |
| run queue and tick | `src/kernel/schedule.c`, `src/arch/x86/HEPT.c` | `RunQueue`, `RunQueueTheorems` | `Scheduler.ScheduleTable` |
| ticket lock | `src/lib/spinlock.c` | `TicketLock`, `TicketLockTheorems` | steps of threads over a shared word |

`Sequences` holds the few facts about intrusive lists that several components share. Everything is
verified together with `dafny verify dfyconfig.toml`.

## What the proofs rest on

- **Pages.** Allocation always splits the smallest sufficient order, so the pools it refills were
  empty; release merges upwards until no neighbour remains. Hence no two free blocks of a pool below
  the last can be merged, in any reachable state, and a release undoes its allocation exactly. Blocks
  merge by adjacency in the table and in memory, not by buddy alignment. `faults` counts the messages
  of the consistency checks; every method proves that it does not grow, but for the release entry
  point, which adds one message exactly for the sizes it turns down.
- **Page tables.** A ghost map gives every table its location, the list of indices from the root.
  Each table has exactly one parent entry, no table but the root may be empty, and the per-level lists and
  counts name exactly the tables. `avail` stands for the frames the page allocator hands out next.
- **Regions.** Addresses are 64-bit words and sums wrap. `node` says whether a descriptor can be had.
- **Small objects.** `live` records what has been handed out and `held` the page runs taken. The run
  on offer, if any, is a parameter; it must not overlap the runs already held, which is what the page
  allocator's `AllocFresh` promises.
- **Buffers.** `released` and `clock` record the order of releases. A read that would put its caller
  to sleep returns `Nothing` and changes nothing. `faults` counts failed asserts; it never grows.
- **Files.** A write is described on the bytes of the file's clusters laid end to end. A byte in a
  hole, behind the end of the file and before the write, is whatever its cluster held.
- **Scheduling.** The bound on the wait of a task adds up the run time that the running and queued
  tasks still lack before they are past it. Run time is missing for tasks behind it in the queue as
  well, because a tie at the front is rotated.
- **Ticket lock.** Fetching a ticket, comparing, reading the owner again and releasing are separate
  steps, so a stale owner value is part of the model.

## Where the code differs from what one would expect

- `vma_new_vadrs` checks `start + vassize` after it has wrapped around 64 bits, so a start close to
  2^64 is granted as a region that ends before it starts (`NewWrapExample`). `vma_del_vadrs` has no
  check at all on the sum (`DeleteWrapExample`). The theorems give the exact conditions.
- Without a descriptor to be had, the hint of `vma_new_vadrs` decides whether a request without a
  start address succeeds: it may choose a region that would need a new neighbour where another could
  simply grow (`HintDecidesExample`; `HintsAgreeIff` says exactly when hints do not matter).
- A request without a file that is granted right behind a mapped file with the limits and kind asked
  for grows that region and so carries its file (`GrowsFileExample`; `CarriesAskedIff` says exactly
  when a grant carries what was asked for). A hole punched into a region takes the file away from
  what lies above it (`HoleExample`, `DeleteCarries`).
- `kmsob_delete` accepts any position of the class, live or not (`DeleteAcceptsIff`). Giving a free one
  back puts it on the free list a second time, or takes the container away under the last live object (`DeleteSafeIff`).
- The release checks of the page allocator compute `1 << dividx` in 32 bits, so blocks of more than
  2^30 pages cannot be released and the attempt prints a message (`ShiftOneExact`,
  `SizeRefusedIff`, `AllocFreeRoundTrip`).
- The ready queue is first-in-first-out among equal run times on insertion, but `schedule` without a
  switch puts the front task behind its equals (`TieExample`; `TiesKeepOrderIff` says exactly when
  ties keep their order).
- With more than 65536 contenders the ticket lock is not exclusive (`TicketsRunOut`).

## Model

| member | source | states |
|---|---|---|
| BitMath.HighBit | src/lib/lib.c:10-18 | the highest set bit k of a non-zero word: 2^k <= n < 2^(k+1) |
| BitMath.BitTrick | src/mm/memdivmer.c:55-67 | `n & (n - 1)` is zero exactly on powers of two |
| BitMath.DivOrder | src/mm/memdivmer.c:55-67 | the order r of a request of n pages: 2^(r-1) < n <= 2^r |
| PageAreaTheorems.AllocSucceeds | src/mm/memdivmer.c:331-364 | a request is granted if and only if some pool of at least its order is not empty |
| PageAreaTheorems.AllocGrants | src/mm/memdivmer.c:605-685 | a grant is exactly 2^r pages with 2^(r-1) < n <= 2^r; free pages fall and allocated pages rise by that many, and the maximum stays |
| PageAreaTheorems.AllocFresh | src/mm/memdivmer.c:605-685 | the granted block was not live before, is live after, and no other live block changes |
| PageAreaTheorems.AllocKeepsInv | src/mm/memdivmer.c:605-727 | allocation keeps blocks disjoint and contiguous, pools exact and fully merged, the sums exact, and the set of covered pages |
| PageAreaTheorems.AllocMaxGrants | src/mm/memdivmer.c:475-501 | the largest-block request fails only when nothing is free and never returns less than the largest free block |
| PageAreaTheorems.AllocMaxKeepsInv | src/mm/memdivmer.c:475-501 | the largest-block request keeps the whole invariant |
| PageAreaTheorems.FreeKeepsInv | src/mm/memdivmer.c:1346-1441 | release keeps the whole invariant, the covered pages, and every other live block |
| PageAreaTheorems.FreeGives | src/mm/memdivmer.c:1346-1508 | a release is accepted exactly for the head of a live block given with its size, of at most 2^30 pages; it takes one reference off, and with the last one the pages are counted free again; otherwise nothing changes |
| PageAreaLaws.MergeUpFullyMerged | src/mm/memdivmer.c:1242-1304 | climbing until no neighbour of the same order remains leaves no two mergeable blocks in any pool below the last |
| PageAreaLaws.SplitDownPools | src/mm/memdivmer.c:659-673 | splitting the smallest sufficient order leaves one block in each pool it refills |
| PageAreaTheorems.MergeUndoesSplit | src/mm/memdivmer.c:1242-1304 | merging finds each split-off half again, order by order, and ends at the block that was split |
| PageAreaTheorems.MergeUndoesTake | src/mm/memdivmer.c:1346-1372 | at the original order nothing further merges and the block returns to the front of its pool |
| PageAreaTheorems.AllocFreeRoundTrip | src/mm/memdivmer.c:1489-1508 | allocate then release restores every pool in order, every block and every counter; refused exactly for orders above 30, where the 32-bit `1 << d` of the entry checks differs from 2^d |
| PageAreaTheorems.ShiftOneExact | src/mm/memdivmer.c:369-392 | the 32-bit shift in the release check equals 2^d if and only if d <= 30 |
| PageAreaTheorems.SizeRefusedIff | src/mm/memdivmer.c:1497-1501 | the release entry point turns a size down, with a message, if and only if it is none of the powers of two up to 2^30 |
| PageAreaTheorems.RunKeepsInv | src/mm/memdivmer.c:781-820 | every state of every run of allocations and releases is well formed, fully merged and exactly counted over the same pages |
| PageAllocator.MemArea.FindPools | src/mm/memdivmer.c:331-364 | finds the pool of the order asked for and the smallest non-empty one from there on, or refuses |
| PageAllocator.MemArea.Unlink | src/mm/memdivmer.c:423-454 | takes the front block off its list, its tail found through the head descriptor |
| PageAllocator.MemArea.AddSplit | src/mm/memdivmer.c:573-602 | hangs an upper half on its pool with head and tail tags; refuses exactly on a wrong length or a page in use |
| PageAllocator.MemArea.SplitTo | src/mm/memdivmer.c:659-673 | the split loop computes the recursive splitting on lists and descriptors and leaves divnr = 2^rel; no message is printed |
| PageTags.SplitAllRep | src/mm/memdivmer.c:659-673 | the descriptors the split loop leaves represent the area split down to the order asked for, with the block at hand cut loose |
| PageAllocator.MemArea.MarkAllocated | src/mm/memdivmer.c:131-183 | tags head and tail of the block as allocated with one reference; none of its checks fires |
| PageAllocator.MemArea.Divide | src/mm/memdivmer.c:695-727 | the in-place request computes the abstract allocation and grant, keeps the representation, and fires no check |
| PageAllocator.MemArea.DivideMax | src/mm/memdivmer.c:475-501 | likewise for the largest-block request |
| PageAllocator.MemArea.DropReference | src/mm/memdivmer.c:271-319 | drops one reference; on the last one retags the block as free; none of its checks fires |
| PageAllocator.MemArea.Accepts | src/mm/memdivmer.c:1375-1441 | the entry checks accept exactly heads of live blocks given with their own size, up to order 30; the count limit of the pool never fires and the size message is printed exactly for refused sizes |
| PageAllocator.MemArea.LooksLive | src/mm/memdivmer.c:1014-1037 | the tags of a page and of the page it links to are those of a live block of that size in this area |
| PageAllocator.MemArea.FindBeside | src/mm/memdivmer.c:1242-1304 | the list walk finds the first block adjacent in the table and in memory; both blocks pass the tag check each time |
| PageAllocator.MemArea.Fuse | src/mm/memdivmer.c:1164-1230 | two adjacent blocks are retagged as one of the next order; clearing the inner tags succeeds and the tag check afterwards passes |
| PageAllocator.MemArea.MergeOnto | src/mm/memdivmer.c:1346-1372 | the merge loop computes the abstract merge on lists, counts and descriptors; the failure of a single merge is never reported |
| PageAllocator.MemArea.AddToPool | src/mm/memdivmer.c:1314-1343 | puts the merged block on the front of its pool; the count never reaches its limit |
| PageAllocator.MemArea.Merge | src/mm/memdivmer.c:1489-1508 | the in-place release computes the abstract one and keeps the representation; it prints the size message exactly when the size is refused and no other message |
| PageAllocator.MemArea.constructor | src/mm/memarea.c:94-124 | an area with empty pools and zero counters over a descriptor table |
| PageAllocator.MemArea.ScanLen | src/mm/memarea.c:211-244 | the length of the maximal contiguous run, found although the scan is given the full count |
| PageAllocator.MemArea.FindRun | src/mm/memarea.c:258-327 | the next maximal run of mountable pages, skipping only pages that may not be mounted |
| PageAllocator.MemArea.CheckRun | src/mm/memarea.c:604-708 | non-zero exactly on a run of mountable contiguous pages of the given length |
| PageAllocator.MemArea.FindOrder | src/mm/memarea.c:435-469 | the highest set bit of the run length; refuses exactly from 2^51 pages on |
| PageAllocator.MemArea.AddFresh | src/mm/memarea.c:402-433 | hangs a fresh block on its pool, tags it and raises the counters; refuses exactly on a wrong length |
| PageAllocator.MemArea.CarveRun | src/mm/memarea.c:586-601 | the carving loop terminates and leaves the area and the descriptors that AddRun and CarveDescs describe; no message is printed |
| PageMount.CarveAll | src/mm/memarea.c:586-601 | carving a maximal run to its end leaves an area in order whose blocks cover the run and everything mounted before |
| PageMount.OrdersAreBits | src/mm/memarea.c:435-469 | the orders carved from n pages are strictly decreasing and their powers of two add up to n: the set bits of n |
| PageMount.RunIsItsOrders | src/mm/memarea.c:519-601 | a carved run consists of consecutive blocks of those orders |
| PageMount.RunCounts | src/mm/memarea.c:402-433 | carving n pages raises free and maximum pages by n and leaves the allocated pages alone |
| PageMount.AddMerged | src/mm/memarea.c:519-601 | a block smaller than those before it in its run, in a run detached from earlier ones, joins nothing |
| PageMount.RunStarts | src/mm/memarea.c:258-327 | a maximal run cannot be joined to any block mounted before |
| PageAllocator.MemArea.Mount | src/mm/memarea.c:718-763 | mounting a whole area ends in a valid area whose blocks cover exactly the pages of its type that are free, unreferenced and not marked allocated; nothing is allocated, no message printed |
| PageTableLaws.SamePagePath | src/mm/inc/halmmu.h:46-64 | two user addresses share a page if and only if all four indices agree |
| PageTableLaws.Decompose | src/mm/inc/halmmu.h:46-64 | the four 9-bit indices are the base-512 digits of the page number |
| PageTableTheorems.TranslateIsMaps | src/mm/halmmu.c:736-766 | the four-level walk finds the entry the tree of tables holds for the page |
| PageTableTheorems.TransformMapsOnePage | src/mm/halmmu.c:577-636 | a mapping succeeds exactly when the missing tables can be had; then the entry of that page is frame and flags, the entries of the tables made on its walk carry the same flags, and no other entry, level by level, has changed; otherwise nothing changes at all |
| PageTableTheorems.MapFails | src/mm/halmmu.c:362-538 | every roll-back label restores tables, lists, counts and frames exactly |
| PageTableTheorems.UntransformUnmapsOnePage | src/mm/halmmu.c:768-806 | unmapping returns the frame and clears the entry of that page; the entries above it stay or are cleared, no entry off its walk changes, and no empty table is left but the root |
| PageTableTheorems.UntransformUndoesTransform | src/mm/halmmu.c:768-806 | unmapping a page just mapped restores the whole state and frees exactly the tables the mapping made |
| PageTableTheorems.MappingKeepsKernelHalf | src/mm/halmmu.c:540-575 | mapping leaves the root entries of the kernel half alone |
| PageTableTheorems.UnmappingKeepsKernelHalf | src/mm/halmmu.c:506-538 | unmapping leaves the root entries of the kernel half alone |
| PageTableTheorems.RunRefinesPlainMap | src/mm/halmmu.c:577-806 | every run of mappings and unmappings keeps the tree of tables and holds, for every page, the entry of a plain map from page number to frame and flags |
| PageTableTheorems.RefinesTranslates | src/mm/halmmu.c:736-766 | and such a tree translates every page to the frame the plain map has for it |
| AddressSpace.MmuDsc.constructor | src/mm/halmmu.c:853-882 | a new address space is a valid tree that maps no user page and has the 256 kernel entries of the running table |
| AddressSpace.MmuDsc.NewDir | src/mm/halmmu.c:116-139 | takes a frame, clears it, lists and counts it; zero exactly when no frame is left |
| AddressSpace.MmuDsc.DelDir | src/mm/halmmu.c:141-183 | unlists and gives back the table, by descriptor or by searching the list; fails exactly if it is not listed |
| AddressSpace.MmuDsc.IsAllZero | src/mm/inc/halmmu.h:75-87 | whether all 512 entries are zero |
| AddressSpace.MmuDsc.TransformDir | src/mm/halmmu.c:540-575 | the next table of the walk, made if missing |
| AddressSpace.MmuDsc.UntransformDir | src/mm/halmmu.c:506-538 | the next table is freed and its entry cleared exactly when it is empty; false exactly if it is empty and not listed |
| AddressSpace.MmuDsc.Transform | src/mm/halmmu.c:577-646 | the walk with its three roll-back labels computes the mapping and keeps the tree |
| AddressSpace.MmuDsc.Untransform | src/mm/halmmu.c:768-816 | the walk with its prune labels computes the unmapping and keeps the tree |
| AddressSpace.MmuDsc.VirToPhy | src/mm/halmmu.c:736-766 | returns the frame the page is mapped to, or zero |
| RegionsTheorems.LookupIgnoresHint | src/mm/krlvadrsmem.c:1052-1076 | the hint never changes the region a lookup returns, and a region is found exactly for covered addresses |
| RegionsTheorems.GapIgnoresHint | src/mm/krlvadrsmem.c:381-416 | the hint never changes whether a gap is found |
| RegionsTheorems.NewIgnoresHint | src/mm/krlvadrsmem.c:420-514 | the case of HintsAgreeIff with a descriptor to be had: success does not depend on the hint, whatever the start and size |
| RegionsTheorems.HintsAgreeIff | src/mm/krlvadrsmem.c:381-514 | all valid hints agree on whether a request succeeds if and only if a start is given, or a descriptor can be had, or the rounded size exceeds the user half, or the regions with room behind them either all can grow as asked or all cannot |
| RegionsTheorems.NewAtStartIgnoresHint | src/mm/krlvadrsmem.c:381-514 | with a start address the hint changes neither the address nor the list, with or without a descriptor |
| RegionsTheorems.HintDecidesExample | src/mm/krlvadrsmem.c:420-496 | three regions where, without a descriptor, no hint is granted 0x1000 bytes and a hint at the second region is refused |
| RegionsTheorems.HolderIgnoresHint | src/mm/krlvadrsmem.c:554-581 | the hint never changes which region a deletion cuts |
| RegionsTheorems.NewGrantedIff | src/mm/krlvadrsmem.c:333-416 | with descriptors to be had, a request that does not wrap is granted if and only if its start, if given, is a page and it ends in the user half, and there are that many bytes between the end of a region and the start of the next |
| RegionsTheorems.NewKeepsOrderedIff | src/mm/krlvadrsmem.c:498-514 | for sizes up to the end of the user half the list stays sorted, disjoint and in bounds if and only if start + size does not wrap 2^64 (or start is misaligned, the list empty, or no descriptor to be had); a grant was free and is exactly what is added |
| RegionsTheorems.NewWrapExample | src/mm/krlvadrsmem.c:498-514 | start 0xfffffffffffff000 with size 0x1000 is granted and breaks the order |
| RegionsTheorems.DeleteRemovesIff | src/mm/krlvadrsmem.c:644-749 | deletion removes exactly the range in all four cases and keeps the list sorted if and only if start plus the rounded size does not wrap, or every region ends before the wrapped end, or a middle cut finds no descriptor |
| RegionsTheorems.DeleteGrantedIff | src/mm/krlvadrsmem.c:535-749 | a range that does not wrap is deleted if and only if some region starts at or before it and ends at or after it, and it shares an end with that region or a descriptor can be had |
| RegionsTheorems.DeleteWrapExample | src/mm/krlvadrsmem.c:644-749 | deleting 0x1000 bytes at 0xfffffffffffff000 breaks the order of every non-empty list |
| RegionsTheorems.RunKeepsOrdered | src/mm/krlvadrsmem.c:420-736 | every run of non-wrapping requests keeps the list sorted, disjoint and in bounds and the hint null or a member |
| RegionsTheorems.RunCovers | src/mm/krlvadrsmem.c:420-736 | after every run of non-wrapping requests the regions cover exactly what a plain set holds that gains each grant and loses each deleted range |
| RegionsTheorems.GrantAfterRunIsNew | src/mm/krlvadrsmem.c:420-736 | a grant after such a run is disjoint from the regions there were and from every earlier grant not since deleted |
| RegionsTraits.NewCarries | src/mm/krlvadrsmem.c:420-514 | every granted address carries the limits, kind, file and flags asked for, or those of the region right before it if that grew; every other address carries what it did |
| RegionsTraits.FileIsMapped | src/mm/krlvadrsmem.c:420-514 | every address granted to a request with a file carries exactly what was asked for |
| RegionsTraits.CarriesAskedIff | src/mm/krlvadrsmem.c:434-446 | a grant carries exactly what was asked for if and only if there is a file, or no region ends right before it with the limits and kind asked for but another file or other flags |
| RegionsTraits.GrowsFileExample | src/mm/krlvadrsmem.c:434-446 | a request without a file, granted behind a mapped file, carries that file |
| RegionsTraits.NewHints | src/mm/krlvadrsmem.c:420-496 | after a grant the hint is the region the granted address lies in; a refusal leaves it |
| RegionsTraits.DeleteCarries | src/mm/krlvadrsmem.c:644-736 | the deleted addresses carry nothing, what lies above a cut in the middle keeps limits and kind and has no file and no flags, every other address carries what it did |
| RegionsTraits.HoleExample | src/mm/krlvadrsmem.c:695-713 | a hole punched into a mapped file takes the file away from what lies above it |
| RegionsTraits.DeleteHints | src/mm/krlvadrsmem.c:583-606 | after a whole region goes the hint is the one that followed it or the last left, after a cut in the middle the part above, else unchanged |
| RegionsTraits.RunCarries | src/mm/krlvadrsmem.c:420-736 | after every run of requests that do not wrap, each address carries what the grants and deletions of the run left it |
| VirtualMemory.UnmapRangeExact | src/mm/krlvadrsmem.c:608-628 | the unmapping loop leaves no page of the range mapped and every other translation alone |
| VirtualMemory.MemSpace.constructor | src/mm/krlvadrsmem.c:245-284 | the two initial regions, with their bounds, form a valid space |
| VirtualMemory.MemSpace.FindKmvarsdsc | src/mm/krlvadrsmem.c:381-416 | the hinted region if the range fits behind it, else the first that does |
| VirtualMemory.MemSpace.NewVadrs | src/mm/krlvadrsmem.c:420-514 | extends or inserts as specified; count, hint and last pointer stay right |
| VirtualMemory.MemSpace.DelFindKmvarsdsc | src/mm/krlvadrsmem.c:554-581 | the hinted region if it holds the range, else the first that does; -1 only if no region starts at or before the range and ends at or after it |
| VirtualMemory.MemSpace.DelSetEndCurr | src/mm/krlvadrsmem.c:583-606 | where the hint and the last pointer go when a region is deleted |
| VirtualMemory.MemSpace.DelUnmapping | src/mm/krlvadrsmem.c:608-628 | the loop unmaps the pages from start up to end, which UnmapRangeExact turns into the statement about translations |
| VirtualMemory.MemSpace.DelVadrs | src/mm/krlvadrsmem.c:644-749 | all four cuts as specified, with the pages of the range unmapped exactly when something is cut |
| VirtualMemory.MemSpace.Release | src/mm/krlvadrsmem.c:644-749 | for a page-aligned range: succeeds exactly if a region holds it and can be cut there; regions lose exactly its addresses and the others carry what DeleteCarries says, none of its pages stays mapped, every other translation is unchanged |
| VirtualMemory.MemSpace.MapFindKmvarsdsc | src/mm/krlvadrsmem.c:1052-1076 | the region an address lies in, whatever the hint |
| SmallObjects.ClassFrom | src/mm/kmsob.c:357-373 | the first size class whose objects are large enough |
| SmallObjectsLaws.SlotsFacts | src/mm/kmsob.c:417-431 | carved slots start past the header, end inside the run, sit at multiples of the size and do not overlap |
| SmallObjectsLaws.SlotsHas | src/mm/kmsob.c:417-431 | an address is carved as a slot if and only if it is a multiple of the size past the header and the object ends before the last byte |
| SmallObjectsLaws.SlotsCount | src/mm/kmsob.c:417-431 | as many slots are carved as the size goes into the room |
| SmallObjectsLaws.RunHolds | src/mm/kmsob.c:437-451 | a run holds at least 29 objects of up to 128 bytes, 15 of up to 512, and 7 of any class |
| SmallObjectsLaws.PageHolds | src/mm/kmsob.c:403-431 | a first page holds 116 objects of 32 bytes, a page added to it 126 |
| SmallObjectsLaws.ExtendOk | src/mm/kmsob.c:503-572 | an extension run adds at least one free slot and keeps the container in order |
| SmallObjectsLaws.FreeSlotIsNew | src/mm/kmsob.c:486-501 | a free slot is not live and overlaps no live slot of its container |
| SmallObjectsLaws.PushOk | src/mm/kmsob.c:750-768 | giving a live object back succeeds; all objects are free exactly when none is live |
| SmallObjectsLaws.ReturnsItsRuns | src/mm/kmsob.c:679-722 | destroying a container returns exactly the page runs it took |
| SmallObjectsTheorems.NewGrants | src/mm/kmsob.c:603-659 | a request for 1 to 2048 bytes fails only with no pages on offer and every position in every run of its class live; otherwise the address starts a slot of at least that size, past its header, inside its run, disjoint from every live object, and the pages on offer are taken exactly when no position was left |
| SmallObjectsTheorems.LiveApart | src/mm/kmsob.c:603-643 | no two live objects of any classes overlap |
| SmallObjectsTheorems.DeleteTakes | src/mm/kmsob.c:724-839 | releasing a live object succeeds; with the last one of a class the container goes and exactly its runs are returned |
| SmallObjectsTheorems.DeleteAcceptsIff | src/mm/kmsob.c:232-269 | a release is accepted if and only if the address is a position for an object of the class of its size, live or not; otherwise nothing changes |
| SmallObjectsTheorems.DeleteSafeIff | src/mm/kmsob.c:724-839 | a release keeps the invariant and every other live object if and only if it is refused or the object is live |
| SmallObjectsTheorems.ReuseIsLast | src/mm/kmsob.c:486-501 | giving an object back does not change which object of its class is handed out next, unless none was free |
| SmallObjectsTheorems.RunKeepsInv | src/mm/kmsob.c:603-839 | every run keeps each class to at most one container, slots apart, free counts equal to list lengths, and all pages accounted for |
| SmallObjectsTheorems.NothingLiveNothingHeld | src/mm/kmsob.c:679-722 | when no object is live no page is held |
| SmallObjectPools.KmsobMgr.constructor | src/mm/kmsob.c:84-101 | 64 empty classes holding no pages |
| SmallObjectPools.KmsobMgr.RetnKoblst | src/mm/kmsob.c:357-373 | the loop finds the first class whose objects are large enough |
| SmallObjectPools.KmsobMgr.Carve | src/mm/kmsob.c:417-431 | the carving loop yields exactly the multiples of the size that fit, and as many as the size goes into the room |
| SmallObjectPools.KmsobMgr.ExtendContainer | src/mm/kmsob.c:503-572 | one more run is carved: its slots join the free list, both counts grow alike, and the run is listed by its size |
| SmallObjectPools.KmsobMgr.RetnNewKmsob | src/mm/kmsob.c:289-317 | the cached container if it fits, else the first that does |
| SmallObjectPools.KmsobMgr.RetnDelKmsob | src/mm/kmsob.c:320-349 | the cached container if it holds the object, else the first that does |
| SmallObjectPools.KmsobMgr.NewObject | src/mm/kmsob.c:603-659 | the in-place request computes the specified one and keeps the invariant |
| SmallObjectPools.KmsobMgr.DelOpKmsob | src/mm/kmsob.c:232-269 | accepts exactly slot addresses inside the first run that holds the bytes |
| SmallObjectPools.KmsobMgr.ReturnPages | src/mm/kmsob.c:679-722 | gives back every extension run with its size, then the own run |
| SmallObjectPools.KmsobMgr.DeleteObject | src/mm/kmsob.c:789-839 | the in-place release computes the specified one; for a live object it succeeds and keeps the invariant |
| BufferPool.Search | src/fs/buffer.c:48-68 | the first buffer of a chain with the block |
| BufferPoolLaws.SearchFinds | src/fs/buffer.c:48-75 | hashing finds the buffer of a block exactly when one is in use for it |
| BufferPoolLaws.AllocKeeps | src/fs/buffer.c:77-106 | growing adds 16 KB of buffers, all free, and never exceeds the maximum |
| BufferPoolLaws.MissFromIdle | src/fs/buffer.c:125-141 | eviction takes the buffer idle longest and, since it is clean, loses no write |
| BufferPoolLaws.TakenIsClean | src/fs/buffer.c:110-142 | a buffer taken for another block has no references, is not dirty, and is on no chain once it is unhashed |
| BufferPoolTheorems.BreadReads | src/fs/buffer.c:207-229 | a read returns what an uncached device would hold, or waits exactly while every one of 4096 buffers is held; it changes no block and adds one reference |
| BufferPoolLaws.BwriteKeeps | src/fs/buffer.c:165-180 | write-back cleans the buffer and changes nothing a reader sees |
| BufferPoolTheorems.BrelseKeeps | src/fs/buffer.c:183-204 | release writes back, drops one reference, and lists the buffer in front of the idle list with the last one |
| BufferPoolTheorems.SyncWritesEverything | src/fs/buffer.c:235-257 | after a sync the device holds, block by block, what the cache showed |
| BufferPoolTheorems.RunIsTransparent | src/fs/buffer.c:110-257 | after every run the cache shows what an uncached device would hold, every buffer is on exactly one list or held, one per block, and reference counts are outstanding reads |
| BufferPoolTheorems.ReadAfterRun | src/fs/buffer.c:207-229 | a read after any run returns the last write to the block |
| BufferCache.BufferDesc.constructor | src/fs/buffer.c:260-279 | an empty pool shows the device |
| BufferCache.BufferDesc.GetFromHashTable | src/fs/buffer.c:48-75 | the chain walk, and off the idle list on a hit |
| BufferCache.BufferDesc.BufferAlloc | src/fs/buffer.c:77-106 | the allocation loop makes one batch of free buffers |
| BufferCache.BufferDesc.GetFreeBuffer | src/fs/buffer.c:110-142 | a free buffer, else the one idle longest, else none, unhashed and invalid; its assert holds |
| BufferCache.BufferDesc.HashRemove | src/fs/buffer.c:38-46 | the buffer leaves its chain if it is on it, and no other chain changes |
| BufferCache.BufferDesc.Getblk | src/fs/buffer.c:144-162 | a hit, or a buffer taken and named for the block; the asserts that it is unreferenced and clean hold |
| BufferCache.BufferDesc.Assign | src/fs/buffer.c:28-36 | the buffer goes in front of the chain of its new block; the assert that it is not on it holds |
| BufferCache.BufferDesc.ReadBlock | src/fs/buffer.c:207-229 | in-place read: data is what the cache and device showed for the block; every block is shown unchanged |
| BufferCache.BufferDesc.WriteBlock | src/fs/buffer.c:165-180 | in place: a dirty buffer goes to the device and becomes clean; the view, the lists and the references stay |
| BufferCache.BufferDesc.ReleaseBlock | src/fs/buffer.c:183-204 | in place: written back, one reference fewer, and idle with the last one; the invariant holds and so does the assert |
| BufferCache.BufferDesc.Flush | src/fs/buffer.c:235-257 | the sync loops leave the device equal to what was shown |
| Sequences.SearchAndDelete | src/lib/lib.c:108-153 | list search followed by deletion removes the first occurrence if there is one |
| FatLaws.EntrySet | src/fs/FAT32/fat32.c:49-63 | writing an entry replaces its low 28 bits, keeps its upper four, changes no other word, and leaves all copies equal |
| FatLaws.FindsFree | src/fs/FAT32/fat32.c:71-87 | the search finds a non-reserved free cluster when there is one |
| FatLaws.NeedMeans | src/fs/FAT32/fat32.c:231-281 | a write takes at most f new clusters if and only if it fits into the clusters it has plus f |
| FatTheorems.WriteStores | src/fs/FAT32/fat32.c:231-281 | the write loop extends the chain by free clusters only, touches nothing else, and lays the buffer over the chain bytes |
| FatTheorems.WriteKeepsVolume | src/fs/FAT32/fat32.c:183-301 | with room, a write keeps chains disjoint, acyclic and ended and copies equal; every other file keeps every byte; the file is its old bytes with the buffer laid over them |
| FatTheorems.WriteTakesFewest | src/fs/FAT32/fat32.c:231-281 | the chain goes on where it ended, by clusters that were free, and by none without which the write would have fitted |
| FatTheorems.ReadGives | src/fs/FAT32/fat32.c:102-172 | a read within the file returns its bytes |
| FatTheorems.WriteThenRead | src/fs/FAT32/fat32.c:102-301 | what was written is read back |
| FatTheorems.RunReadsLikePlainFiles | src/fs/FAT32/fat32.c:102-301 | after any sequence of fitting writes to any files the volume is in order, every file has the size, and every byte once there or written the value, that a plain map from file to bytes gives it |
| FatTheorems.ReadAfterRun | src/fs/FAT32/fat32.c:102-301 | a read of a byte after such a run returns what the plain map holds there |
| FatVolume.MountedVolume.ReadEntry | src/fs/FAT32/fat32.c:28-40 | 28 bits of the entry in the first copy |
| FatVolume.MountedVolume.WriteEntry | src/fs/FAT32/fat32.c:49-63 | the sector of the first copy, changed, goes to every copy |
| FatVolume.MountedVolume.FindAvailable | src/fs/FAT32/fat32.c:71-87 | the first free entry, sector by sector |
| FatVolume.MountedVolume.ReadFile | src/fs/FAT32/fat32.c:102-172 | the read loop returns exactly the bytes of the file |
| FatVolume.MountedVolume.WriteFile | src/fs/FAT32/fat32.c:183-301 | the write loop computes the specified write: the volume stays in order, other files keep their bytes, and the buffer is read back |
| RunQueueTheorems.InsertKeepsSorted | src/kernel/schedule.c:58-89 | insertion keeps the queue sorted and duplicate-free and puts the task behind those with equal run time |
| RunQueueTheorems.SwitchKeeps | src/kernel/schedule.c:106-140 | schedule keeps the queue sorted and duplicate-free and the count exact, loses no task, and leaves a task running whose run time is at most that of every queued task |
| RunQueueTheorems.SwitchLeaves | src/kernel/schedule.c:106-140 | schedule charges nobody and unflags exactly the task that ran |
| RunQueueTheorems.SwitchReadies | src/kernel/schedule.c:106-140 | the task left running is in state TASK_RUNNING and no other state changes |
| RunQueueTheorems.NoSwitchRotatesTies | src/kernel/schedule.c:132-137 | without a switch the queue is unchanged if and only if no second task ties with the front; a tie is rotated |
| RunQueueTheorems.TiesKeepOrderIff | src/kernel/schedule.c:106-140 | across a whole schedule, tasks with equal run times that stay queued keep their order if and only if it switches, or fewer than two tasks are queued, or no second task ties with the front |
| RunQueueTheorems.TieExample | src/kernel/schedule.c:132-137 | a concrete state in which schedule swaps two queued tasks with equal run times |
| RunQueueTheorems.RunKeepsInv | src/kernel/schedule.c:58-140 | every run of ticks, reschedules, blocking and wake-ups keeps the queue sorted and duplicate-free and the count at one plus its length, so the slice division never divides by zero |
| RunQueueTheorems.RunKeepsFlags | src/kernel/schedule.c:106-140 | in every run no task but the running one is flagged NEED_SCHEDULE |
| RunQueueTheorems.SliceLasts | src/kernel/schedule.c:91-105 | among n tasks, one of priority 0 or 1 runs exactly max(1, 4/n) ticks, charged 1 each, before schedule is called again, and any other exactly max(1, 3(4/n)/2 rounded up), charged 2 each |
| RunQueueTheorems.WokenIsServed | src/kernel/task.c:129-134 | the tick after a wake-up leaves a running task that has run no longer than the woken one, which is ready and queued or runs |
| RunQueueTheorems.EveryTickHelps | src/arch/x86/HEPT.c:78-100 | every tick gets the waiting task to run or strictly lowers its bound |
| RunQueueTheorems.QueuedTaskRuns | src/kernel/schedule.c:106-140 | a queued task runs within a bounded number of ticks if no task blocks, wakes or is created |
| Scheduler.ScheduleTable.constructor | src/kernel/schedule.c:142-154 | the idle task is current, nothing is queued, the count is one; its state is not yet running |
| Scheduler.ScheduleTable.StartIdle | src/kernel/task.c:548-555 | the end of task_init: the idle task gets state TASK_RUNNING and run time 0, and nothing else changes |
| Scheduler.ScheduleTable.GetNextTask | src/kernel/schedule.c:13-32 | takes the front of the queue and lowers the count; with an empty queue the idle task, and nothing changes |
| Scheduler.ScheduleTable.InsertTaskQueue | src/kernel/schedule.c:58-89 | the loop puts the task where InsertKeepsSorted wants it and raises the count; the idle task is never queued |
| Scheduler.ScheduleTable.SupplementTimeSlice | src/kernel/schedule.c:91-105 | shares of 4, 2, 1 or 0 among one, two, up to four or more tasks, threefold for priorities other than 0 and 1 |
| Scheduler.ScheduleTable.Reschedule | src/kernel/schedule.c:106-140 | computes the specified switch and leaves the least-run task running |
| Scheduler.ScheduleTable.TimerHandler | src/arch/x86/HEPT.c:78-100 | charges the running task and its slice and flags it when the slice is used up |
| Scheduler.ScheduleTable.Wakeup | src/kernel/task.c:129-134 | a task that is neither queued nor running becomes ready |
| TicketLockTheorems.EveryRunIsFair | src/lib/spinlock.c:42-65 | with up to 65536 threads, in every interleaving at most one thread holds the lock, it is granted in ticket order, and the tickets of waiters and holder fill owner..next modulo 2^16 |
| TicketLockTheorems.ExclusiveIff | src/lib/spinlock.c:42-65 | mutual exclusion holds in every run if and only if there are at most 65536 threads |
| TicketLockTheorems.TicketsRunOut | src/lib/spinlock.c:44-58 | an interleaving of 65537 threads in which two hold the lock |
| TicketLockTheorems.OthersKeepFirst | src/lib/spinlock.c:61-64 | no step of another thread takes the first waiter out of its place |
| TicketLockTheorems.FirstGetsLock | src/lib/spinlock.c:44-58 | the first waiter gets the lock within three of its own steps |

## Left out

- MemArea: the single-page pool of the process area (`mm_prcdivpages_onmarea`, `divpages_procmarea_core`, `continumsadsc_add_procmareabafh`) and the release of its pages; its blocks have one order, so nothing splits or merges.
- MemArea: the global counters of `mm_update_memmgrob` and the statistics `af_aobjnr`, `af_alccnt` and `af_frecnt`, which nothing reads.
- Mount: `merlove_setallmarflgs_onmemarea`; pages come tagged with their area. The descriptor after the table's last one must not be mountable, because the scan is given the full count (`src/mm/memarea.c:306`).
- Mount: tables of 2^51 or more descriptors, where the carving loop would not terminate.
- Accepts: the area is the block's own; choosing among areas (`onfrmsa_retn_marea`) is a comparison of types, included as a check.
- MmuDsc: TLB flushes, CR3, `hal_mmu_clean`, physical addresses with flag bits above 4095, and frames of zero; the page allocator is the stock `avail`, and giving a frame back puts it in front.
- MmuDsc: the failure of `mmu_new_tdirearr` in `hal_mmu_init`; an address space exists once it has a root.
- MemSpace: page boxes (`vma_del_usermsa`, `knl_put_kvmemcbox`, `knl_count_kvmemcbox`), so the release of the unmapped frames themselves; `vs_startkmvdsc`, which deletion does not maintain; `copy_one_vma`; page faults.
- KmsobMgr: the list and header words stored inside the runs and `ks_msobche` (written, never read).
- DeleteSafeIff: a free object given back again stands twice in the model's free list; the kernel links its one list node a second time, which breaks the list itself.
- KmsobMgr: exhaustion of the 64-bit object counts.
- BufferDesc: device errors, failure of the allocator in `buffer_alloc`, coherence between the four block sizes, and the sleeping and waking of waiters.
- BufferDesc: `buffer_alloc` takes no buffer data address; contents start empty and are never shown before a read.
- MountedVolume: full disks (the finder returns -1 while its callers test for 0), positions at or past the end of the chain, I/O errors, directory entries, names and time stamps. Positions and counts stay below 2^31, and the table and data sectors of the partition do not overlap.
- MountedVolume: the table covers exactly the clusters that exist; entries past the last cluster are not modelled.
- ScheduleTable: `switch_to`, `switch_mm`, interrupt masking, timers and soft interrupts; a tick is taken when preemption is enabled. Run times are unbounded integers.
- TicketLock: `preempt_disable` and `preempt_enable`; the reader/writer and plain spin locks.
- The kernel's `minix` file system, bitmaps, date conversion, semaphores, the older 2 MB page and slab code, drivers, shell and system calls.
