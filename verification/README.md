# The kernel's memory manager

A Dafny model of the memory manager of a small x86-64 kernel: a stack of allocators, each of which keeps a fast, encoded
structure that must agree with a simple set. The proofs say that it does, over every run.

- **Buddy allocator** (`Blocks`, `PairIndex`, `Bitmap`, `Buddy*`, `FreeStore`, `Populate`). `BuddySpec` gives each operation
  as a function on free lists, pair bits and byte counters; `BuddyState` has the invariant; `BuddyCanonical` shows that the
  lists are then a function of the free pages alone. `BuddyAllocator` is the imperative form: lists of nodes linked by
  relative offsets, a bitmap in a byte buffer, the loops that split, coalesce, shrink and populate, each tied to its function.
- **Page counts** (`Phys*`, `KeptBlocks`, `NodeBound`, `BuddyRuns`, `PoolRuns`). `phys_alloc`, `phys_block_shrink` and
  `phys_free`, which know an allocation only by its base and page count, and whole runs of them.
- **Boot regions** (`Regions`). Early reservations and the usability test.
- **Slab caches and kmalloc** (`Slab*`, `Kmalloc*`). `SlabModel` has a cache as three lists and a chain of free cells per
  slab; `SlabStore` and `SlabCache` keep it in memory shared by all caches, as doubly linked headers and pointers in the cells.
- **Page tables** (`EntryBits`, `PageTables`, `PageMapping`, `PageRanges`, `Rights`, `VirtualMemory`, `VmAsWritten`).
  Entries and virtual addresses are 64-bit words, tables are arrays of 512 of them at physical addresses (4-level paging, section 4.5 of
  the Intel SDM Volume 3A).
- **Blocks of a zone** (`Block*`, `PageGrowth`, `RightsRuns`, `VmZones`, `ZonesApart`, `ZoneExample`, `SlabZone`). The free
  list threaded through the page table entries of blocks that are not in use, and the frames and rights of those that are.
- **Lock-free list and counters** (`PageList`, `Counters`). State machines over single memory accesses of any number of threads.

## Where the text departs from its intent

The model follows the stated intent. Each departure is listed with the member, if any, that says exactly when the text is right.

- `kernel/src/mm/buddy_alloc.c:242` asks about the right-hand neighbour, not the buddy, and merges at the top order too; line
  253 stops at the top order with the index of the order below, which line 272 then toggles. The model asks about the buddy as
  lines 227-230 do, merges below the top order only, and toggles the bit of the order reached; bits of the top order mean
  nothing in the invariant. `BuddyAsWritten.FreeAsWrittenIff`, `BuddyAsWritten.LandsOnTop`.
- `kernel/src/mm/buddy_alloc.c:121-128` reads a list above the top order when the target is the top order, and lines 185-192
  account for memory that was not found. The model reads no such list and has out of memory as a result.
  `BuddyAsWritten.AllocAsWrittenIff`.
- `kernel/src/mm/buddy_alloc.c:330` uses the page count that the loop has reduced. `BuddyAsWritten.ShrinkAsWrittenIff`.
- `kernel/src/mm/buddy_alloc.c:291` and line 326 count the order down in eight bits past 0, so that line 301 shifts by 256
  where a call ends at a single page, which C leaves undefined. The model has 1 there. `BuddyAsWritten.ShiftsTooFarIff`.
- `kernel/src/mm/phys_alloc.c:105-106` shrinks whatever `buddy_alloc_block` returned, so that out of memory is carved up like
  a block. The model passes it on. `PhysAsWritten.PhysAllocAsWrittenIff`.
- `kernel/src/mm/phys_alloc.c:9` keeps `MAX_ORDER + 1` nodes ready. That covers `phys_alloc` and `phys_free`, and it covers a
  `phys_block_shrink` in every state if and only if its need is no more; 127 pages to 1 need twelve. `NodeBound.ThresholdIff`,
  `NodeBound.NodesSuffice`, `NodeBound.ShrinkOutgrowsThreshold`.
- `kernel/src/mm/page_alloc.c:78` goes round with a head that may be null. The model gives up, as line 64 does.
  `PageList.NullIffEmptied`, `PageList.RunReadsNullIff`.
- `kernel/src/mm/slab.c:109-110` leaves the objects of a new slab out of the free objects, lines 92-99 leave new slabs out of
  the free slabs, and lines 167-168 count a slab that becomes free as one that becomes partial. The intended meaning is what
  `test/suites/mm/test_slab.c:73-81` compares. `SlabCounts.AllocCounts`, `SlabCounts.PreallocCounts`,
  `SlabCounts.PutCounts`.
- `kernel/src/mm/kmalloc.c:11` is one slot short. `Kmalloc.SlotInDeclaredMap`.
- `kernel/src/mm/vm.c:254` ignores the error of the traversal, against the comment at lines 235-236, and lines 89-92 add the
  guard page in 16 bits. The model reports the error and counts in full. `VmAsWritten.MapPagesAsWrittenIff`,
  `VmAsWritten.MissingTableLosesTree`, `PageRanges.WrittenCheckIff`.
- `kernel/src/mm/vm.c:238-240` says that up to 512 aligned pages can be mapped at once. The check refuses every range that
  reaches the last entry, and the model follows the code. Its mask (line 104) leaves out bits 45 to 47, which does no harm:
  a range of at most 512 pages that changes them changes bit 21 too. `PageRanges.InOneTableIff`.
- `kernel/src/mm/vm.c:529` passes the address of the block for its number of pages. `BlockBits.AheadAsWrittenIff`.
- `kernel/src/mm/vm.c:573-575` clears the first entry only. `BlockRuns.FreeAsWrittenIff`.
- `kernel/src/mm.c:74` adds to the kernel's address of the frame. `VmAsWritten.VirtToPhysAsWrittenIff`.

## Assumptions

- Usable regions are disjoint, do not touch, have `free_start` at most their end, and stay fixed after `buddy_init`.
- Callers free and shrink only what they hold, at the right order or page count; `1 <= num_pages <= 2^order` for a shrink.
  Whole-run statements carry a ghost record of what is held.
- The node pool given to `buddy_init` is large enough to populate the lists, and growing it is one step.
- Cells hold a pointer and a slab holds two of them. Slabs from `vm_alloc_block` are aligned, not null, and in no cache.
- A freed page goes back on the lock-free list only when no allocation in flight has read it as head. Fewer than 2^16 references
  are held to a page.
- No huge page is on the way to a page table that is searched for or made; new page tables and frames are distinct and new.
- The blocks of a zone are aligned to their size, no two are on one page, entries can hold the distances between them, a block
  has at most 128 pages, and the zone is not used up (the code does not compare the cursor with the end of the zone).
- `vm_alloc_block` is asked for no more rights than the page tables on the way grant (the code does not look at the error).

## Model

| member | source | states |
|---|---|---|
| Blocks.BuddyFacts | kernel/src/mm/buddy_alloc.c:20-29 | On aligned offsets the buddy is an involution, and a block and its buddy are the two halves of one parent |
| Blocks.Nested | kernel/src/mm/buddy_alloc.c:233-278 | Two aligned blocks that overlap are nested, and equal at equal order |
| PairIndex.IndexIdentifiesPair | kernel/include/mm/buddy_alloc.h:71-91 | Two arguments share a bitmap index if and only if they have the same order and the same pair |
| PairIndex.IndexOfBlock | kernel/include/mm/buddy_alloc.h:71-91 | For aligned blocks: same index if and only if same order and same block or its buddy |
| PairIndex.IndexInBitmap | kernel/src/mm/buddy_alloc.c:10-18 | The index of every managed page at every order is inside the bitmap |
| PairIndex.BitmapIsLeast | kernel/src/mm/buddy_alloc.c:10-18 | The bitmap is as long as the super-blocks that hold a page need, and no longer |
| PairIndex.EveryIndexIsAPair | kernel/include/mm/buddy_alloc.h:80-91 | The indices fill whole super-blocks with no gap: each belongs to a pair in them |
| PairIndex.SlotInjective | kernel/include/mm/buddy_alloc.h:80-84 | The slot in a super-block determines both the order and the pair |
| Bitmaps.OnesAfterSet | kernel/src/mm/bitmap.c:32-33 | Raising a bit of a byte buffer adds exactly that index to the set of one bits |
| Bitmaps.OnesAfterClear | kernel/src/mm/bitmap.c:34-36 | Lowering a bit removes exactly that index |
| Bitmaps.Bitmap.GetBit | kernel/src/mm/bitmap.c:12-21 | Reads the bit, and 0 past the buffer |
| Bitmaps.Bitmap.SetBit | kernel/src/mm/bitmap.c:23-39 | Sets or clears exactly that bit, and touches nothing past the buffer |
| Bitmaps.Bitmap.ToggleBit | kernel/src/mm/bitmap.c:41-58 | Flips exactly that bit and returns its new value |
| BuddyState.InsertKeeps | kernel/src/mm/buddy_alloc.c:270-278 | Listing a block whose buddy does not wait, with the bit set, keeps the invariant and frees exactly its pages |
| BuddyState.RemoveKeeps | kernel/src/mm/buddy_alloc.c:179-183 | Taking a block off its list, with the bit cleared, keeps the invariant and leaves exactly that block in hand |
| BuddyCanonical.ListedIffMaximal | kernel/src/mm/buddy_alloc.c:120-333 | Canonical form: a block is on its list if and only if it is a maximal aligned block of free pages |
| BuddyCanonical.FreePagesDecideLists | kernel/src/mm/buddy_alloc.c:120-333 | Equal free pages give equal lists, as sets, and equal meaningful pair bits |
| BuddyCanonical.Covering | kernel/src/mm/buddy_alloc.c:120-132 | Every aligned run of free pages lies inside one listed block |
| BuddySpec.SplitDownKeeps | kernel/src/mm/buddy_alloc.c:144-166 | Splitting keeps the invariant and leaves exactly one block of the target order in hand |
| BuddySpec.AllocBlockKeeps | kernel/src/mm/buddy_alloc.c:169-193 | Allocation hands out an aligned block of free pages, takes exactly those off, and changes nothing when it fails |
| BuddySpec.AllocFailsIffNoRun | kernel/src/mm/buddy_alloc.c:120-132 | Allocation fails if and only if no aligned run of that many pages is free |
| BuddySpec.AllocTakesSmallest | kernel/src/mm/buddy_alloc.c:120-193 | Allocation takes the head of the smallest order that has a block; a larger block leaves one block in every order in between and one in the order asked for |
| BuddySpec.BuddyIsWaiting | kernel/src/mm/buddy_alloc.c:223-231 | While merging, the pair bit and usability test hold if and only if the buddy is on its list |
| BuddySpec.MergeKeeps | kernel/src/mm/buddy_alloc.c:247-262 | Each merge finds the buddy on its list and leaves the whole parent in hand |
| BuddySpec.ClimbKeeps | kernel/src/mm/buddy_alloc.c:253-272 | The coalescing loop ends in canonical form with exactly the freed pages added |
| BuddySpec.FreeBlockKeeps | kernel/src/mm/buddy_alloc.c:233-283 | Freeing keeps the invariant and gives back exactly the block |
| BuddySpec.ShrinkListsKeeps | kernel/src/mm/buddy_alloc.c:302-327 | The shrink loop frees exactly the pages past the first n and keeps every pair bit right |
| BuddySpec.ShrinkBlockKeeps | kernel/src/mm/buddy_alloc.c:285-333 | Shrinking keeps the first n pages allocated and frees exactly the rest |
| BuddyAccounts.AllocBlockConserves | kernel/src/mm/buddy_alloc.c:188-190 | Allocation keeps free bytes equal to the sum over the lists, and free plus allocated bytes constant |
| BuddyAccounts.FreeBlockConserves | kernel/src/mm/buddy_alloc.c:280-282 | So does freeing |
| BuddyAccounts.ShrinkBlockConserves | kernel/src/mm/buddy_alloc.c:329-332 | So does shrinking, counted with the page count it was called with |
| BuddyAccounts.TotalIsFreePages | kernel/src/mm/buddy_alloc.c:195-217 | The pages summed over the lists are exactly the free pages |
| FreeStore.ChainUnique | kernel/src/mm/buddy_alloc.c:201-204 | Following relative offsets from a head yields one list only |
| FreeStore.ChainNoDup | kernel/src/mm/buddy_alloc.c:201-204 | A list linked by relative offsets never comes back to a node |
| FreeStore.PushNode | kernel/src/mm/buddy_alloc.c:55-61 | Linking a node in front with a relative offset, zero standing for none, pushes exactly one block |
| FreeStore.PopNode | kernel/src/mm/buddy_alloc.c:134-136 | Following the first offset pops exactly the first block |
| FreeStore.CutNode | kernel/src/mm/buddy_alloc.c:206-216 | Rewriting the offset before a node removes exactly its block |
| BuddyAllocation.BuddyAllocator.constructor | kernel/src/mm/buddy_alloc.c:98-115 | Empty lists, an all-zero bitmap, the pool as spare nodes |
| BuddyAllocation.BuddyAllocator.AllocateEntry | kernel/src/mm/buddy_alloc.c:55-61 | Takes one spare node and pushes the block; loose nodes stay loose |
| BuddyAllocation.BuddyAllocator.PopEntry | kernel/src/mm/buddy_alloc.c:195-217 | Finds and removes the block if it is listed, and returns null with no change otherwise |
| BuddyAllocation.BuddyAllocator.FindOrSplitBlock | kernel/src/mm/buddy_alloc.c:120-167 | Refines the split specification, with a bound on the nodes it takes |
| BuddyAllocation.BuddyAllocator.AllocBlock | kernel/src/mm/buddy_alloc.c:169-193 | Refines the allocation specification and keeps the invariant; out of memory moves no counter |
| BuddyAllocation.BuddyAllocator.FreeBlock | kernel/src/mm/buddy_alloc.c:233-283 | Refines the freeing specification; gives back exactly the block; takes at most one node |
| BuddyAllocation.BuddyAllocator.Coalesce | kernel/src/mm/buddy_alloc.c:253-272 | The loop on nodes and bits is the climb of the specification |
| BuddyAllocation.BuddyAllocator.ShrinkBlock | kernel/src/mm/buddy_alloc.c:285-333 | Refines the shrink specification and frees exactly the pages past the count |
| BuddyAllocation.BuddyAllocator.ExpandPool | kernel/src/mm/buddy_alloc.c:335-337 | New cells become spare nodes and nothing else changes |
| BuddyAllocation.BuddyAllocator.FillOneWindow | kernel/src/mm/buddy_alloc.c:70-94 | One window is filled as the specification says |
| BuddyAllocation.BuddyAllocator.PopulateInitialFreelists | kernel/src/mm/buddy_alloc.c:63-96 | A page below the end is free afterwards if and only if it and the pages before it in its window are usable memory; the invariant holds |
| Populate.PopulatedInv | kernel/src/mm/buddy_alloc.c:63-96 | Each window lists its longest usable prefix; with an all-zero bitmap the invariant and both counters hold |
| Populate.FilledInv | kernel/src/mm/buddy_alloc.c:63-96 | Listing all managed pages as expansions satisfies the pair-bit invariant for zero bits |
| Populate.UsableIsBit | kernel/src/mm/buddy_alloc.c:81-88 | The next block of a window is usable if and only if that bit of the prefix length is one |
| Populate.FillRun | kernel/src/mm/buddy_alloc.c:77-92 | The blocks of a run are the binary expansion of its length, largest first |
| Regions.ManagedRows | kernel/src/mm/buddy_alloc.c:69-95 | The pages managed are those up to the end of memory that are usable together with all before them in their window |
| Regions.IsBlockUsable | kernel/src/mm/boot_mmap.c:137-151 | The walk over the regions answers whether one region holds the whole block |
| Regions.UsableIffPages | kernel/src/mm/boot_mmap.c:137-151 | In separated regions a block is usable if and only if each of its pages is |
| Regions.BuddyUsable | kernel/src/mm/buddy_alloc.c:227-230 | The usability test made while coalescing says whether the buddy is managed |
| Regions.BootMap.Reserve | kernel/src/mm/boot_mmap.c:115-135 | Takes exactly the bytes asked for off the front of the first region with room to spare, changes nothing else, and returns where they start, or 0 |
| Regions.ReservationsSafe | kernel/src/mm/boot_mmap.c:115-135 | Over any run the reservations are pairwise disjoint and inside usable regions |
| Regions.RunReserves | kernel/src/mm/boot_mmap.c:115-135 | A reservation of a run fails only if no region left has room to spare, and otherwise is the front of the first that has |
| Regions.ReservationsConserve | kernel/src/mm/boot_mmap.c:115-135 | Over any run every byte of the regions is left in one or reserved, and never both |
| Regions.UsableMissesReserved | kernel/src/mm/boot_mmap.c:115-151 | No block usable after the reservations overlaps any of them |
| Regions.ManagedMissesReserved | kernel/src/mm/buddy_alloc.c:63-96 | No page that the buddy allocator manages meets a reservation |
| PhysSpec.BitOrderIsLeast | kernel/include/utility/math.h:21-31 | bit_order gives the smallest order whose block holds the pages |
| PhysSpec.KeptIsExpansion | kernel/src/mm/phys_alloc.c:103-106 | What an allocation of n pages keeps of its block is the binary expansion of n |
| KeptBlocks.KeptIsWhatStays | kernel/src/mm/buddy_alloc.c:302-327 | Those kept blocks are exactly the pages of the block that are not listed after the shrink loop |
| KeptBlocks.ShrinkLeavesExpansion | kernel/src/mm/phys_alloc.c:116-140 | phys_block_shrink leaves exactly the blocks that phys_free finds from the new page count, and they are the pages it does not list |
| PhysSpec.ExpansionShape | kernel/src/mm/phys_alloc.c:116-137 | The blocks of an expansion follow each other without gap, are one bits of n, and fall in size |
| PhysProofs.PhysAllocKeeps | kernel/src/mm/phys_alloc.c:98-110 | Hands out exactly n pages from a base aligned to bit_order, or changes nothing |
| PhysProofs.PhysAllocFailsIff | kernel/src/mm/phys_alloc.c:98-110 | phys_alloc fails if and only if the count is out of range or no aligned run of the smallest order that holds it is free |
| PhysProofs.ShrinkFromKeeps | kernel/src/mm/phys_alloc.c:119-137 | The walk over the bits of n frees exactly the pages past the target |
| PhysProofs.PhysShrinkKeeps | kernel/src/mm/phys_alloc.c:116-140 | phys_block_shrink keeps the first pages and frees exactly the rest |
| PhysProofs.AllocThenFree | kernel/src/mm/phys_alloc.c:98-114 | Round trip: phys_alloc(n) then phys_free restores lists, meaningful bits and both counters |
| PhysProofs.ShrinkTwice | kernel/src/mm/phys_alloc.c:116-140 | Shrinking n to m to k is shrinking n to k |
| PhysAllocation.PhysAlloc | kernel/src/mm/phys_alloc.c:98-110 | The imperative form refines the specification, with MAX_ORDER - 1 spare nodes always enough |
| PhysAllocation.PhysBlockShrink | kernel/src/mm/phys_alloc.c:116-140 | The imperative form refines the specification, for any pool with one node for each right half and each whole block it lists |
| PhysAllocation.PhysFree | kernel/src/mm/phys_alloc.c:112-114 | Frees exactly the n pages, with MAX_ORDER spare nodes always enough |
| PhysAllocation.FreeNodes | kernel/src/mm/phys_alloc.c:112-137 | Freeing never lists more than MAX_ORDER blocks |
| PhysAllocation.OneBitPerBlock | kernel/src/mm/phys_alloc.c:119-120 | One bits of the count and blocks of the expansion are as many |
| PhysAllocation.FreespaceCheck | kernel/src/mm/phys_alloc.c:89-96 | Below the threshold one slab of nodes is added, and the allocator is otherwise unchanged; a slab of as many cells meets the threshold |
| NodeBound.ShrinkTakes | kernel/src/mm/phys_alloc.c:116-137 | No shrink takes more nodes than that need, and one that finds nothing free after its base takes exactly as many |
| NodeBound.NodesSuffice | kernel/src/mm/phys_alloc.c:9-9 | For every page count, target and number of nodes: the nodes suffice in every state if and only if they are the need or more |
| NodeBound.ThresholdIff | kernel/src/mm/phys_alloc.c:9-9 | The threshold covers a shrink in every state if and only if its need is at most MAX_ORDER + 1; it does for freeing and for keeping all |
| NodeBound.ShrinkOutgrowsThreshold | kernel/src/mm/phys_alloc.c:9-9 | Shrinking 127 pages to 1 takes twelve nodes in a window wholly in use |
| PoolRuns.PhysAllocNodes | kernel/src/mm/phys_alloc.c:98-106 | phys_alloc never takes more than MAX_ORDER - 1 nodes |
| PoolRuns.PoolSuffices | kernel/src/mm/phys_alloc.c:89-140 | Over every run of calls that each end with the pool check, no shrink needing more than the threshold, every call finds at its start the nodes it needs, so the pool grows between calls only |
| BuddyRuns.RunKeeps | kernel/src/mm/phys_alloc.c:98-140 | Every state of every run of allocations, shrinks and frees satisfies the whole invariant |
| BuddyRuns.RunAllocates | kernel/src/mm/phys_alloc.c:98-110 | In every run an allocation succeeds if and only if an aligned run that holds it is free, adds exactly n free pages to what is held, and does nothing otherwise |
| BuddyRuns.RunGivesBack | kernel/src/mm/phys_alloc.c:112-140 | In every run a shrink keeps the first pages held, a release none, and exactly the rest becomes free |
| BuddyRuns.RunCanonical | kernel/src/mm/phys_alloc.c:98-140 | In every state of every run the lists are the maximal aligned free blocks |
| BuddyRuns.FreeIffNotLive | kernel/src/mm/phys_alloc.c:98-140 | A managed page is free if and only if no live allocation has it |
| BuddyRuns.HistoryIndependence | kernel/src/mm/phys_alloc.c:98-140 | Two runs that leave the same pages in use leave the same lists, bits and counters |
| BuddyRuns.RunCounts | kernel/src/mm/buddy_alloc.c:280-282 | Over every run the counters are the listed and the live pages, times the page size |
| BuddyAsWritten.FreeAsWrittenIff | kernel/src/mm/buddy_alloc.c:242-272 | The text of buddy_free_block keeps the invariant if and only if a condition on the neighbour, the order and the rest of the window holds |
| BuddyAsWritten.LandsOnTop | kernel/src/mm/buddy_alloc.c:253-272 | Coalescing reaches the top order if and only if the rest of the window is free |
| BuddyAsWritten.AllocThenFreeAsWritten | kernel/src/mm/buddy_alloc.c:242-272 | A concrete allocation and free that breaks the invariant, whatever lies to the right |
| BuddyAsWritten.PagesLeftIff | kernel/src/mm/buddy_alloc.c:302-327 | The loop ends with the original page count if and only if it is a power of two |
| BuddyAsWritten.ShrinkAsWrittenIff | kernel/src/mm/buddy_alloc.c:330-332 | The text of buddy_shrink_block counts right if and only if the page count is a power of two |
| BuddyAsWritten.ShrinkToThreeMiscounts | kernel/src/mm/buddy_alloc.c:330-332 | Keeping three pages of four is counted wrongly |
| BuddyAsWritten.ShiftsTooFarIff | kernel/src/mm/buddy_alloc.c:291-326 | The loop of buddy_shrink_block ends at a single page, where its test shifts by 256, if and only if the page count is odd |
| BuddyAsWritten.AllocAsWrittenIff | kernel/src/mm/buddy_alloc.c:121-192 | At every order the text of buddy_alloc_block does what is meant, and counts right, if and only if an aligned run is free; it reads past the last list if and only if the order is the top one and none is |
| BuddyAsWritten.AllocWhenFull | kernel/src/mm/buddy_alloc.c:121-192 | With all pages in use the top order reads past the last list, and every other order moves the counters for nothing |
| PhysAsWritten.PhysAllocAsWrittenIff | kernel/src/mm/phys_alloc.c:98-110 | The text of phys_alloc returns the right block and lists the right pages if and only if the count is out of range or an aligned run is free; its counters are right besides if and only if the count is a power of two |
| PhysAsWritten.NoneLeftIsCarvedUp | kernel/src/mm/phys_alloc.c:105-106 | With all pages in use, asking for three lists the last page of the address space and returns an address for it |
| PageList.PopKeeps | kernel/src/mm/page_alloc.c:68-79 | A successful compare-and-swap of an allocation pops the top page, which nobody else has |
| PageList.PushKeeps | kernel/src/mm/page_alloc.c:86-95 | A successful compare-and-swap of a free pushes the page |
| PageList.StepKeeps | kernel/src/mm/page_alloc.c:59-96 | Every access of every thread is a push, a pop or nothing to the stack, and keeps list, ownership and locals consistent |
| PageList.RunIsStack | kernel/src/mm/page_alloc.c:59-96 | In every disciplined interleaving the list in memory is the stack that the successful operations make, in order |
| PageList.StepConserves | kernel/src/mm/page_alloc.c:59-96 | No access loses or makes up a page |
| PageList.AllocEnds | kernel/src/mm/page_alloc.c:59-80 | An access that ends an allocation has popped its page, or has found every page out |
| PageList.AllocGoesOn | kernel/src/mm/page_alloc.c:68-79 | An allocation whose compare-and-swap fails with pages on the list goes round again |
| PageList.FreeEnds | kernel/src/mm/page_alloc.c:82-96 | A free ends only with its page on top of the list, and until then goes on with the same page |
| PageList.RunGivesUpIff | kernel/src/mm/page_alloc.c:59-80 | Over a run, some allocation ends without a page if and only if one looked at the head with every page out |
| PageList.NullIffEmptied | kernel/src/mm/page_alloc.c:71-78 | The text dereferences null if and only if an allocation reaches its compare-and-swap after the list was emptied |
| PageList.RunReadsNullIff | kernel/src/mm/page_alloc.c:71-78 | A run dereferences null if and only if some allocation reaches its compare-and-swap with every page of the run taken or on its way back |
| PageList.LastPageRace | kernel/src/mm/page_alloc.c:71-78 | A concrete race for the last page that does |
| PageList.PageGivenBackTooSoon | kernel/src/mm/page_alloc.c:68-79 | Without the discipline a page in use becomes the list head |
| Counters.NoLostUpdate | kernel/include/cpu/atomic.h:51-62 | In every interleaving the word is what all finished calls make of it one after another, and each returned its own value |
| Counters.RetryMeansProgress | kernel/include/cpu/atomic.h:54-61 | A compare-and-swap fails only if another call has finished since the thread last looked |
| Counters.CasFinishesIff | kernel/include/cpu/atomic.h:51-62 | In every interleaving a compare-and-swap ends its call, on the word as it is, if and only if the word is as the thread last saw it; else the thread goes round again |
| Counters.KeepsCall | kernel/include/cpu/atomic.h:51-62 | Until it finishes a thread keeps the call it began with |
| Counters.ReturnsCountIff | kernel/src/mm/page.c:100-103 | A call returns the true count if and only if the count fits in 16 bits |
| Counters.OneDropReturnsZero | kernel/src/mm/page.c:100-115 | A call returns 0 if and only if it drops the last reference, and the next call takes the first one again |
| Counters.FlagsKeepLastCall | kernel/src/mm/page.c:72-98 | In every interleaving each flag bit is as the last call that names it left it |
| Counters.FlagsKeepUnnamed | kernel/src/mm/page.c:72-98 | A flag bit that no call names is as it was at the start |
| SlabModel.LayoutForOk | kernel/src/mm/slab.c:34-47 | The cells per slab are as many as fit; a slab has two if and only if a cell is at most half the data |
| SlabModel.ObjectFound | kernel/src/mm/slab.c:143-153 | Rounding the address of an object down finds its slab, and division its cell |
| SlabModel.CellsApart | kernel/src/mm/slab.c:124-126 | Different cells share no byte, and none reaches into a header or out of its slab |
| SlabModel.AllocKeeps | kernel/src/mm/slab.c:102-140 | An allocation hands out one cell that no caller has and keeps the cache invariant |
| SlabModel.AllocPrefers | kernel/src/mm/slab.c:102-122 | The object comes from a slab partly in use while there is one, then from a wholly free one, and from a new slab if and only if no slab has a free cell |
| SlabModel.PutKeeps | kernel/src/mm/slab.c:143-173 | A free takes back exactly that cell and keeps the cache invariant |
| SlabModel.AddSlabsKeeps | kernel/src/mm/slab.c:79-90 | New slabs go on the free list and no object changes hands |
| SlabModel.AllocThenFree | kernel/src/mm/slab.c:102-173 | Round trip: freeing what was just allocated restores lists and chains exactly |
| SlabModel.FreeThenAlloc | kernel/src/mm/slab.c:102-173 | The object freed last is allocated next if and only if its slab is next in line |
| SlabCounts.Conservation | kernel/src/mm/slab.c:171-172 | Live plus free objects are slabs times objects per slab, and every slab is on one list |
| SlabCounts.ReserveCounts | kernel/src/mm/slab.c:82-89 | Reserving keeps all counters true |
| SlabCounts.PreallocCounts | kernel/src/mm/slab.c:92-99 | The text of slab_cache_prealloc keeps them true if and only if the slabs it adds are a multiple of 65536, so none |
| SlabCounts.AllocCounts | kernel/src/mm/slab.c:105-138 | Allocation keeps all counters true; as written if and only if no new slab was needed |
| SlabCounts.FirstAllocMiscounts | kernel/src/mm/slab.c:109-110 | The first allocation of an empty cache is miscounted by the text |
| SlabCounts.PutCounts | kernel/src/mm/slab.c:155-172 | Freeing keeps all counters true; as written if and only if no slab becomes free |
| SlabCounts.OnlyObjectMiscounts | kernel/src/mm/slab.c:160-172 | Freeing the only object of a slab is miscounted by the text |
| SlabStore.SlabMemory.Unlink | kernel/src/mm/slab.c:8-19 | Removes exactly the slab from a doubly linked list and writes links only |
| SlabStore.SlabMemory.Link | kernel/src/mm/slab.c:22-31 | Puts exactly the slab in front and writes links only |
| SlabStore.ChainUnique | kernel/src/mm/slab.c:124-126 | The chain followed from a header can visit no other cells |
| SlabCache.KmemCache.constructor | kernel/src/mm/slab.c:34-52 | An empty cache whose counters are true |
| SlabCache.KmemCache.InitSlab | kernel/src/mm/slab.c:54-69 | The loop threads all cells into one chain and writes nothing outside the slab |
| SlabCache.KmemCache.Reserve | kernel/src/mm/slab.c:79-90 | Adds slabs for the objects asked for and keeps the cache valid |
| SlabCache.KmemCache.Prealloc | kernel/src/mm/slab.c:92-99 | Adds the given slabs, counted |
| SlabCache.KmemCache.ReadySlab | kernel/src/mm/slab.c:103-122 | The first partial slab, the first free one, or a new one becomes the slab at hand |
| SlabCache.KmemCache.TakeCell | kernel/src/mm/slab.c:124-138 | Takes the first cell and moves the slab if it is full |
| SlabCache.KmemCache.Alloc | kernel/src/mm/slab.c:102-140 | Refines the specification on lists, chains and counters; other memory is untouched |
| SlabCache.KmemCache.WriteCell | kernel/src/mm/slab.c:149-155 | Threads the cell back in front of its chain |
| SlabCache.KmemCache.Settle | kernel/src/mm/slab.c:155-172 | Moves the slab to the list its count chooses |
| SlabCache.KmemCache.Free | kernel/src/mm/slab.c:143-173 | Refines the specification from the address alone; other memory is untouched |
| Kmalloc.BuildMap | kernel/src/mm/kmalloc.c:21-33 | The loops map every size in eights to the smallest class that fits |
| Kmalloc.SlotClass | kernel/src/mm/kmalloc.c:43-43 | Rounding up to eights does not change the class |
| Kmalloc.SlotInDeclaredMap | kernel/src/mm/kmalloc.c:11-11 | The map as declared has a slot for a size if and only if it is at most MAX_KMALLOC_SIZE - 8 |
| Kmalloc.SizesFit | kernel/include/mm/kmalloc.h:12-12 | The table of sizes is increasing, of eights, ends at the limit, and each class has two cells a slab or more |
| KmallocRuns.StartOk | kernel/src/mm/kmalloc.c:14-19 | Caches without slabs are a state in which runs may start |
| KmallocRuns.MallocKeeps | kernel/src/mm/kmalloc.c:38-45 | The pointer returned was not out, no other changes, and its slab has the id of its cache |
| KmallocRuns.KfreeKeeps | kernel/src/mm/kmalloc.c:48-54 | kfree takes back exactly that pointer, in the cache found by alignment |
| KmallocRuns.OutApart | kernel/include/mm/slab.h:89-92 | Objects that are out share no byte, whichever caches they are from |
| KmallocRuns.AllocateReturns | kernel/src/mm/kmalloc.c:38-45 | Within the limit the call returns a pointer nobody has; over it null, and nothing changes |
| KmallocRuns.RunKeeps | kernel/src/mm/kmalloc.c:38-54 | Over every run callers hold exactly what is out, and every pointer stays in the class its size was routed to |
| KmallocRuns.RunMeans | kernel/src/mm/kmalloc.c:38-54 | What each call of a run does: one new pointer within the limit and nothing over it, one pointer fewer, or exactly the new slabs in one cache |
| KmallocRuns.StockKeeps | kernel/src/mm/slab.c:79-90 | Reserving slabs for a cache hands out nothing and takes nothing back |
| KmallocRuns.RunConserves | kernel/src/mm/slab.c:79-173 | Over every run each slab is on the list its free count chooses, and live plus free objects are slabs times objects |
| KmallocRuns.RunApart | kernel/src/mm/kmalloc.c:38-54 | Over every run the bytes asked for by different callers are disjoint |
| KmallocAllocator.Allocator.constructor | kernel/src/mm/kmalloc.c:14-34 | Valid caches in table order and a built map, before slabs are reserved |
| KmallocAllocator.Allocator.ReserveAll | kernel/src/mm/kmalloc.c:15-19 | Three slabs are reserved for every cache, and all stay valid and apart |
| KmallocAllocator.Allocator.Kmalloc | kernel/src/mm/kmalloc.c:38-45 | Allocates in the smallest class that fits; the other caches stay as they were |
| KmallocAllocator.Allocator.Kfree | kernel/src/mm/kmalloc.c:48-54 | Frees in the cache whose id the slab header has; the other caches stay as they were |
| EntryBits.MappedFacts | kernel/src/mm/vm.c:114-144 | Mapping sets frame and rights as asked and preserves bits 9-11 and 52-62 |
| EntryBits.MappedGrants | kernel/src/mm/vm.c:66-84 | An entry mapped with some flags passes the check for the same flags |
| EntryBits.SamePage | kernel/include/mm.h:123-143 | Two addresses are on one page if and only if all four table offsets agree |
| Rights.CheckStatusIs | kernel/src/mm/vm.c:66-84 | Unmapped if and only if bit 0 is clear; Privilege if and only if it is set and a right asked for is clear; Ok otherwise |
| Rights.MappedBits | kernel/src/mm/vm.c:114-144 | The bits of a mapped entry: rights and frame as asked, the record as it was, all others clear |
| Rights.NewTableBits | kernel/src/mm/vm.c:38-60 | A new table is zero but for the mark of early memory in its first entry |
| Rights.IndicesOfAddress | kernel/include/mm.h:123-143 | An address built from four indices and an offset has each index at its own height, and that offset |
| PageTables.AddTableWalks | kernel/src/mm/vm.c:195-200 | Linking a new table changes the translation of no address |
| PageTables.AddTableTree | kernel/src/mm/vm.c:194-203 | Linking a new table keeps the tables a tree with no sharing |
| PageMapping.PathUnique | kernel/src/mm/vm.c:156-176 | Addresses that meet in a table came through the same entries |
| PageMapping.TraverseOnPath | kernel/src/mm/vm.c:149-177 | The traversal follows the path and stops above the first entry that is missing or refuses |
| Rights.ByteTranslates | kernel/src/mm.c:34-76 | A byte on a page of 4 KB goes to its frame plus bits 0 to 11 of the address |
| Rights.HugeByteTranslates | kernel/src/mm.c:57-62 | A byte on a page of 2 MB goes to its frame plus bits 0 to 20 of the address |
| Rights.NoThirdTable | kernel/src/mm.c:40-55 | With no table that far down, an address translates to nothing |
| Rights.TraverseStops | kernel/src/mm/vm.c:149-177 | The traversal passes the entries that grant what is asked and stops at the first that does not, with the reason |
| Rights.TraverseOkIff | kernel/src/mm/vm.c:149-177 | Ok if and only if all three entries above the page table are present and have the rights asked for |
| Rights.TraverseRefusedIff | kernel/src/mm/vm.c:149-177 | Privilege if and only if the first entry that is missing or refuses is present |
| Rights.FindRights | kernel/src/mm/vm.c:180-211 | The entries made on the way to a missing page table have exactly the rights asked for; with none missing nothing is written |
| Rights.FindGrants | kernel/src/mm/vm.c:180-211 | The page table found or made is reached by a traversal for the same rights |
| PageMapping.FindKeeps | kernel/src/mm/vm.c:180-211 | Finding or making a page table keeps tree, translations and allocation records; it fails only on a refusal |
| PageMapping.EntryTranslates | kernel/src/mm/vm.c:137-144 | Writing an entry changes the translation of exactly the addresses of its page |
| PageMapping.MapThenTranslate | kernel/src/mm/vm.c:180-211 | Map then translate: the page goes to the frame, every other page is as before, tree and records survive |
| PageRanges.InOneTableIff | kernel/src/mm/vm.c:87-112 | The boundary check accepts if and only if the range ends before the last entry of its table |
| PageRanges.WrittenCheckIff | kernel/src/mm/vm.c:87-112 | The 16-bit check is right for a range with its guard page if and only if the count is not 65535 pages and a guard page |
| PageRanges.RangeKeeps | kernel/src/mm/vm.c:258-263 | After the loop page k translates to frame k for all k, and nothing else changed |
| Rights.MapAllRights | kernel/src/mm/vm.c:258-263 | Every page mapped by the loop can be written, used by the user and executed exactly as the flags say |
| VirtualMemory.AddressSpace.VirtToPhys | kernel/src/mm.c:34-76 | The page walk returns the translation, or 0 |
| VirtualMemory.AddressSpace.TraverseWithStatus | kernel/src/mm/vm.c:149-177 | The loop refines the traversal of the specification |
| VirtualMemory.AddressSpace.FindOrAllocatePt | kernel/src/mm/vm.c:180-211 | The loop refines the specification, tables and all; a table returned is reached with the rights asked for |
| VirtualMemory.AddressSpace.FindPtOrNull | kernel/src/mm/vm.c:213-233 | Returns the page table on the path, or null |
| VirtualMemory.AddressSpace.MapPages | kernel/src/mm/vm.c:243-274 | Pages and guard page translate to consecutive frames with exactly the rights asked for, the guard page not writable; an error changes nothing |
| VirtualMemory.PagesMappedKeeps | kernel/src/mm/vm.c:235-274 | What vm_map_pages is meant to do: consecutive frames, the rights asked for, a guard page that cannot be written, nothing else changed, and no change on an error |
| VmAsWritten.MapPagesAsWrittenIff | kernel/src/mm/vm.c:243-274 | Result and tables of the text are the intended ones if and only if the count does not wrap, and the range fails the check or its page table is there and grants the access |
| VmAsWritten.MissingTableLosesTree | kernel/src/mm/vm.c:250-263 | Whenever the traversal fails and a page is asked for, the text reports success and what it leaves is no tree of tables |
| VmAsWritten.MapIntoNothing | kernel/src/mm/vm.c:250-263 | An empty root table is such a state |
| VmAsWritten.VirtToPhysAsWrittenIff | kernel/src/mm.c:34-76 | The text gives the physical address if and only if the address is on a huge page or unmapped |
| VmAsWritten.SmallPageMisplaced | kernel/src/mm.c:74-75 | Four tables and an address on a small page for which the text is wrong |
| BlockBits.BlockOfAddress | kernel/src/mm/vm.c:545-546 | Every address of a block, and no other, rounds down to its base |
| BlockBits.BlockPagesAre | kernel/src/mm/vmzone.c:15-27 | Blocks have a power of two pages, at most 128 |
| BlockZone.BlocksFollow | kernel/src/mm/vm.c:490-500 | Block after block, each as many bytes long as its pages, from the start of the zone |
| BlockZone.FreeTakes | kernel/src/mm/vm.c:540-546 | vm_free_block finds a block from the address vm_alloc_block returned and from every other address in it |
| BlockBits.FreeEntryLeads | kernel/src/mm/vm.c:559-575 | The entry of a freed block leads to the next one in either direction, and maps nothing |
| BlockBits.PreparedLeads | kernel/src/mm/vm.c:490-500 | A prepared entry leads to the block after it |
| BlockBits.BlockEntryIs | kernel/src/mm/vm.c:353-369 | Each page of a block is mapped and marked by whether pages of the block lie before and after it |
| BlockRights.BlockEntryRight | kernel/src/mm/vm.c:353-369 | The entry of a page of a block has exactly the rights asked for, bit 56 for early memory, and bits 9-11 as recorded |
| BlockRights.FramesFollow | kernel/src/mm/vm.c:520-537 | The frames of a block follow each other by pages |
| BlockBits.AheadAsWrittenIff | kernel/src/mm/vm.c:529-529 | As written the mark ahead is right if and only if the page is not the last of its block |
| PageGrowth.FindPaths | kernel/src/mm/vm.c:180-211 | Making tables touches no page table there was and no path there was |
| BlockZone.FreeKeeps | kernel/src/mm/vm.c:540-578 | Freeing makes the block the first free one, unmaps exactly its pages, and keeps the zone invariant |
| BlockAlloc.FindPreparedKeeps | kernel/src/mm/vm.c:514-518 | Making and preparing the page table keeps every block, and those in it lead to their successors |
| BlockRuns.AllocKeeps | kernel/src/mm/vm.c:503-537 | Allocation hands out the block at the cursor, which was not live, maps exactly its pages, and finds the next one |
| BlockRights.AllocRights | kernel/src/mm/vm.c:503-537 | After an allocation every page of the block has its frame, exactly the rights asked for, and the record its first entry had |
| BlockRights.FreeRecords | kernel/src/mm/vm.c:555-575 | Freeing changes the distance, its sign and presence in the first entry of the block, and presence in the others |
| BlockRuns.FreeThenAlloc | kernel/src/mm/vm.c:503-578 | Free then alloc returns the same block and restores the cursor |
| BlockRuns.AllocThenFree | kernel/src/mm/vm.c:503-578 | Alloc then free leaves every translation as it was, the cursor at that block, and the blocks as they were, but that a new block becomes the first freed one |
| BlockRuns.StartGood | kernel/src/mm/vmzone.c:104-122 | The first page table of a zone, just made and prepared, is a state in which runs may start |
| BlockRuns.RunKeeps | kernel/src/mm/vm.c:503-578 | In every run the entries from the cursor are the freed blocks last first, then the unused ones; no live block is handed out |
| BlockRuns.FreeAsWrittenIff | kernel/src/mm/vm.c:573-575 | The text leaves no page of the block mapped if and only if blocks are single pages |
| ZoneExample.SmallZoneOk | kernel/src/mm/vmzone.c:15-27 | A zone of one block of two pages meets every assumption made of zones |
| ZoneExample.StartInv | kernel/src/mm/vmzone.c:15-27 | Unused, over an empty root table, it satisfies the invariant |
| ZoneExample.SecondPageStays | kernel/src/mm/vm.c:503-578 | Allocating its block and freeing it by the text leaves the second page mapped |
| BlockFrames.FrameOfLive | kernel/src/mm/vm.c:555-557 | The frame that freeing reads from the first entry is the one the block translates to |
| BlockFrames.RunFrames | kernel/src/mm/vm.c:503-578 | In every run a live block translates to the physical block its last allocation was given, so that is what freeing it gives back |
| BlockFrames.RunMeans | kernel/src/mm/vm.c:503-578 | In every run an allocation makes exactly the block at the cursor live, and a free exactly its block free and next to be handed out |
| RightsRuns.AllocSame | kernel/src/mm/vm.c:503-537 | Allocating leaves every entry of the blocks that were live |
| RightsRuns.RunRights | kernel/src/mm/vm.c:503-578 | In every run every page of a live block has the frame, exactly the rights and the record of its last allocation |
| ZonesApart.AllocKeepsOther | kernel/src/mm/vm.c:503-537 | Allocating in one zone keeps the invariant of any zone that shares no page table with it |
| ZonesApart.FreeKeepsOther | kernel/src/mm/vm.c:540-578 | So does freeing |
| SlabZone.NewSlab | kernel/src/mm/slab.c:71-76 | The block handed out for a slab is new to every cache whose slabs are live blocks of the zone |
| VmZones.VmZone.PrepareBlockPt | kernel/src/mm/vm.c:490-500 | The loop prepares the entries it visits and no others |
| VmZones.VmZone.AllocBlock | kernel/src/mm/vm.c:503-537 | Refines the specification and returns the old cursor, which was not a live block; every page of it has the rights asked for |
| VmZones.VmZone.FreeBlock | kernel/src/mm/vm.c:540-578 | Refines the specification from any address in the block; exactly its pages are unmapped, their records stay, and the frame given back is the one the block translated to |

## Left out

- PhysAllocation.FreespaceCheck: growing the pool is one step that adds a slab of new cells; the way from there through `vm_alloc_block` back into `phys_alloc` is not followed.
- VmZones.VmZone.AllocBlock: takes the physical block as a parameter; the call of `phys_alloc` for it is not followed.
- VmZones.VmZone.FreeBlock: returns the frame that `phys_free` would be called with; the call is not followed, nor skipped for early memory.
- BlockZone.FreeKeeps: says nothing of physical memory; `BlockFrames` does.
- KmallocAllocator.Allocator.constructor: leaves reserving three slabs for each cache to `ReserveAll`, which is called next.
- Memory accesses of threads are single steps in one order; weaker memory orders are not modelled.
- `buddy_estimate_pool_size` is an estimate; a pool that is large enough is assumed instead.
- `__init_general_pages`: the page list starts as any well-formed list.
- `vmzone_extend` and `vmzone_shrink`: left-over flag bits and shadowed table pointers leave the intended meaning too unclear.
- BlockRuns.StartGood: takes the zone to meet its assumptions; `ZoneExample` gives one that does, and that the constants of `vmzone_init` do is not proved.
- `vm_space_pt_init`, `vm_pt_init` and `vmspace_init`: set-up of page tables by hand; the model starts from any tree of tables.
- The tail of `drop_page_reference` that lowers the free count of a buddy block, whose effect the code leaves for later.
- `_alloc_page_tables` for more than one table at a time, which only `vmspace_init` asks for.
- TLB flushes and reading CR3: the root table is a parameter. Entries of huge pages are translated but never made.
- Multiboot tags and the linker's kernel bounds: the list of regions is an input.
- Bootloader, descriptor tables, interrupts, ports and console output: hardware effects with nothing to state.
