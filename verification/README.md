# ProtoKernel: verified models

ProtoKernel is a small kernel for arm64 and RISC-V. This project models the parts of it that carry
the hard state: the physical memory manager and the buddy page allocator on top of it, the page-table
builder for Sv39 and for the arm64 four-level format, the radix tree, the slab caches and the hash
index that finds the cache of an address, the interrupt domains with message-signalled interrupts, and
the device-tree walker. `dafny verify dfyconfig.toml` checks everything.

How the files fit together:

| files | component |
|---|---|
| `Bits`, `Options`, `Dyadic` | powers of two, XOR, counting in bitmaps; optional values; aligned blocks, uniqueness of the coalesced decomposition |
| `Pmm` | region bitmaps, first fit, reservation |
| `PageChunk`, `FreeLists`, `PageState`, `PageAlloc` | one chunk; free lists and sums; one step of the allocator; the allocator |
| `PageTable`, `TableWalk`, `Vmm` | entry formats; the hardware's walk and the kernel's; mapping and unmapping |
| `RadixNodes`, `Radix` | the tree as a value and its single changes; the operations |
| `SlabLayout`, `Slab`, `SlabCache` | slab sizes; chains and lists as a value; the cache |
| `SlabHash`, `SlabLookup` | the hash; the address index |
| `IrqState`, `IrqMappings`, `IrqDomain` | mappings as a value; what mapping and unmapping keep; the interrupt core |
| `MsiState`, `Msi` | vector ranges as a value; allocation with rollback |
| `FdtFormat`, `Fdt` | the structure block of section 5.4 of the Devicetree Specification; the walkers |
| `Witnesses` | concrete inputs and short runs at which the code departs from its evident intent |

Code that changes state in place is a class whose methods carry the new state in their contracts; what
the state means is stated on values, in lemmas that the methods use. An allocation that can fail is a
nondeterministic choice counted by a ghost field, and contracts tie every failure for lack of memory to that count. Each locked section is one step.
The hardware's translation (`TableWalk.Walk`) follows section 4.4 (Sv39) of the RISC-V Privileged
Architecture, version 1.12, and the VMSAv8-64 chapter of the Arm Architecture Reference Manual, DDI 0487,
with the 4 KB granule.

Some of what the code evidently intends does not hold. The model keeps the code, states exactly when the
intent is met, and shows an input at which it is not:

| intent | exact condition | failing input |
|---|---|---|
| freeing everything restores the chunk | `PageChunk.Confluence`, `PageChunk.ConfluenceFails` | `Witnesses.ConfluenceWitness` |
| a split loses no pages | `PageAlloc.PageAllocator.SplitBlock` | `Witnesses.SplitWitness` |
| `page_free` accepts only what was allocated | `PageAlloc.PageAllocator.PageFree` | `Witnesses.WrongOrderRun` |
| lookup and unmapping agree with the hardware | `Vmm.AddressSpace.VirtToPhys`, `Vmm.AddressSpace.UnmapPage` | `Witnesses.BlockLookupWitness` |
| a range can be mapped if its pages can | `Vmm.PlanAgainstPages` | `Witnesses.PlanWitness` |
| a successful range mapping maps the range | `Vmm.AddressSpace.MapRange` | `Witnesses.WrapRun` |
| `max_key` bounds the keys | `Radix.BoundKept` | `Witnesses.LostKeyRun` |
| iteration increases | `Radix.ChainOrder` | `Witnesses.WrapAroundRun` |
| replacing keeps the tree well formed | `Radix.RadixTree.Replace` | `Witnesses.ReplaceRun` |
| empty slabs are given back | `Slab.OneObjectSlabs` | `Witnesses.OneObjectWitness` |
| freeing keeps the free chain | `Slab.PushChain`, `Slab.DoubleFreeCycles` | `Witnesses.DoubleFreeWitness` |
| the index knows the owner of an object | `SlabLookup.TrueOwner` | `Witnesses.OwnerWitness` |
| the index counts its entries | `SlabLookup.LookupTable.Migrate` | `Witnesses.MigrateRun` |
| disposal undoes creation | `IrqMappings.RoundTrip`, `IrqDomain.IrqCore.CreateMapping` | `Witnesses.ReservationWitness` |
| disposal keeps the interrupt tables consistent | `IrqMappings.DetachKeeps` | `Witnesses.StrandedWitness`, `Witnesses.HandlerRun` |
| every vector has a virq | `Msi.MsiDevice.AllocVectors`, `Msi.MsiDevice.MapVector` | `Witnesses.NoVirqRun` |
| a node's parent can be found | `Fdt.ParentOffset` | every node |
| an uncached mapping is normal uncached memory | `PageTable.MadeBlock` | every uncached arm64 mapping: the boot code leaves MAIR_EL1 index 2 at device memory |

## Model

| member | source | states |
|---|---|---|
| `Dyadic.BuddyFacts` | kernel/memory/page_alloc.c:162-164 | The XOR of an aligned block's address with its size is an aligned block of the same order that adjoins it; the two are exactly the halves of one aligned block of the next order, and the buddy of the buddy is the block. |
| `Dyadic.UniqueDecomposition` | kernel/memory/page_alloc.c:285-311 | Two sets of disjoint aligned blocks that cover the same pages and contain no pair of buddies are equal. |
| `PageChunk.CarveReaches` | kernel/memory/page_alloc.c:358-404 | A carve of an interval of at least 2^(k+1) - 1 pages starts, wherever the interval lies, with a block of order at least k (k up to the cap). |
| `PageChunk.CarveTiles` | kernel/memory/page_alloc.c:358-404 | The greedy carve yields disjoint aligned blocks inside the chunk, and for a chunk of at most 8 MB no two of them are buddies. |
| `PageChunk.CarveSound` | kernel/memory/page_alloc.c:358-404 | A freshly carved chunk satisfies the chunk invariant: geometry, no two free buddies below the cap, and tracked pages = carved pages. |
| `PageChunk.Confluence` | kernel/memory/page_alloc.c:592-622 | A sound chunk without live blocks and without losses has exactly the free blocks it was carved into, provided the carve holds no pair of buddies. |
| `PageChunk.ConfluenceFails` | kernel/memory/page_alloc.c:592-599 | The proviso is needed: if the carve holds two order-11 buddies, a sound chunk without live blocks exists whose free blocks differ from the carve. |
| `PageChunk.FreeBlocksDetermined` | kernel/memory/page_alloc.c:507-632 | The free blocks of a sound chunk of at most 8 MB are determined by its live pages and losses: two histories that agree on these agree on every free (address, order). |
| `PageChunk.SplitSound` | kernel/memory/page_alloc.c:238-276 | Halving the held block into a spare slot keeps geometry, coalescing and the tracked pages. |
| `PageChunk.SplitLoses` | kernel/memory/page_alloc.c:278-281 | Halving without a spare slot keeps the invariant only with the right half added to what the chunk has lost. |
| `PageChunk.MergeSound` | kernel/memory/page_alloc.c:285-311 | Merging the held block with its free buddy keeps geometry, coalescing and the tracked pages. |
| `PageChunk.ReleaseHeld` | kernel/memory/page_alloc.c:592-622 | A held block whose buddy is not free can be released: the chunk is fully coalesced again. |
| `PageState.LiveDisjoint` | kernel/memory/page_alloc.c:415-466 | Any two different live blocks of the allocator are disjoint. |
| `PageState.SplitStructure` | kernel/memory/page_alloc.c:238-276 | A split keeps the free lists in agreement with the block table, the per-chunk counters, and free_pages = sum of free blocks plus losses. |
| `PageState.LossKeeps` | kernel/memory/page_alloc.c:278-281 | A split that drops its right half keeps everything once the dropped pages are counted as lost. |
| `PageState.TakeKeeps` | kernel/memory/page_alloc.c:448-466 | Marking the held block allocated makes exactly that block live, which was not live, and keeps lists, counters, geometry and coalescing. |
| `PageState.ReturnGood` | kernel/memory/page_alloc.c:580-587 | Marking a live block free removes exactly that block from the live ones. |
| `PageState.MergeGood` | kernel/memory/page_alloc.c:285-311 | Merging keeps total_pages = sum over all tracked blocks plus losses, and every chunk sound. |
| `PageState.UnlinkKeeps` | kernel/memory/page_alloc.c:214-236 | Taking a block off its free list leaves every other free block on exactly the list of its order. |
| `PageState.LinkGood` | kernel/memory/page_alloc.c:193-212 | Putting a block without free buddy on its list restores full coalescing. |
| `PageState.DropGood` | kernel/memory/page_alloc.c:679-706 | Removing a chunk without live blocks keeps the invariant of all others. |
| `PageAlloc.ChunkServes` | kernel/memory/page_alloc.c:470-504 | For orders 0 to 9 every chunk the sizing rule obtains, the 2 MB fallback included, carves a block of at least that order first, whatever its base. |
| `PageAlloc.ChunkSizes` | kernel/memory/page_alloc.c:470-488 | A refill asks for 512 pages up to order 6, 1024 up to order 9, and the block plus one page from order 10 on; the 2 MB fallback applies to orders 7 and 8 alone. |
| `PageAlloc.PageAllocator.constructor` | kernel/memory/page_alloc.c:113-122 | The allocator without chunks satisfies the invariant. |
| `PageAlloc.PageAllocator.Boot` | kernel/memory/page_alloc.c:126-132 | Start-up takes the first fit of 512 pages as a first chunk if and only if the PMM has one; nothing becomes live. |
| `PageAlloc.PageAllocator.LiveNeverOverlap` | kernel/memory/page_alloc.c:415-632 | In every reachable state two live allocations do not overlap, whether buddy blocks or taken straight from the PMM. |
| `PageAlloc.PageAllocator.ChunkRestored` | kernel/memory/page_alloc.c:592-622 | In every reachable state a chunk of at most 8 MB with no allocated block and no loss holds exactly the free blocks it was carved into, in whatever order they were freed. |
| `PageAlloc.PageAllocator.SplitOnce` | kernel/memory/page_alloc.c:238-283 | One halving puts the right half in a spare slot of the chunk and at the head of its list, or loses exactly that half if there is no spare slot; other blocks stay. |
| `PageAlloc.PageAllocator.SplitBlock` | kernel/memory/page_alloc.c:238-283 | Splitting down to an order loses nothing if and only if the chunk has a spare slot for every halving; the right halves, from the largest on, head their lists, the other lists and live blocks are unchanged. |
| `PageAlloc.PageAllocator.BestFit` | kernel/memory/page_alloc.c:358-398 | The carve loop's choice is the largest order up to the cap whose aligned block starts at or after the cursor and fits. |
| `PageAlloc.PageAllocator.CarveChunk` | kernel/memory/page_alloc.c:358-404 | The carve loop fills the table with exactly the greedy carve, pushes each block onto its list in order, and counts its pages. |
| `PageAlloc.PageAllocator.ChunkFromPmm` | kernel/memory/page_alloc.c:313-413 | A chunk is added if and only if the PMM has a run of that size: exactly the PMM's first fit stops being free there and becomes a freshly carved chunk at the head of the chunk list; otherwise nothing changes. |
| `PageAlloc.PageAllocator.TakeBlock` | kernel/memory/page_alloc.c:432-467 | Serves an order from the first non-empty list: the start of its head is returned, its right halves go to their lists, and no other list, chunk or PMM page changes. |
| `PageAlloc.PageAllocator.PageAlloc` | kernel/memory/page_alloc.c:415-505 | Every call: success makes exactly one new block live, aligned and disjoint. What the lists cannot serve leads to a chain of refills, each of the size the order calls for and 2 MB only where the PMM has no such run, until the lists can serve it or nothing can be obtained; failure means the latter. At most one chunk is added for orders up to 9; the recursion terminates. |
| `PageAlloc.PageAllocator.Refill` | kernel/memory/page_alloc.c:470-504 | Succeeds if and only if the PMM has a run of the chunk size of the order or, for orders 7 and 8, of 512 pages; the new chunk is the PMM's first fit of the chunk size, and of 512 pages only if there is none of that size. For orders up to 9 the retry then finds a block; a failed refill changes nothing. |
| `PageAlloc.PageAllocator.AllocDirect` | kernel/memory/page_alloc.c:421-430 | From order 12 on the block is the PMM's first fit of 2^order pages, found if and only if there is one; the buddy state is left alone. |
| `PageAlloc.PageAllocator.Coalesce` | kernel/memory/page_alloc.c:592-620 | The merge loop ends with a block whose buddy inside the chunk is not free; on the way one block of the chunk leaves the list of each order passed; live blocks are unchanged and the chunk stays sound. |
| `PageAlloc.PageAllocator.Rejoin` | kernel/memory/page_alloc.c:592-622 | After merging, the block goes to the head of its list, and no chunk holds two free buddies. |
| `PageAlloc.PageAllocator.EmptyChunk` | kernel/memory/page_alloc.c:679-687 | All free blocks of a chunk leave their lists and the counters. |
| `PageAlloc.PageAllocator.DropChunk` | kernel/memory/page_alloc.c:677-706 | A returned chunk's pages, metadata included, are free in the PMM again; no live block is touched. |
| `PageAlloc.PageAllocator.CheckEmptyChunks` | kernel/memory/page_alloc.c:664-715 | Chunks without allocated blocks leave from the head of the list on, until two chunks remain or none is left to go; exactly their pages become free in the PMM. |
| `PageAlloc.PageAllocator.FreeDirect` | kernel/memory/page_alloc.c:524-531 | Exactly the managed pages of the run become free in the PMM and the buddy state is left alone; the invariant survives if and only if the run touches no chunk and no other block taken this way. |
| `PageAlloc.PageAllocator.GiveBack` | kernel/memory/page_alloc.c:580-622 | Marking, merging and linking adds 2^order to the free pages; with the order of the allocation exactly that block stops being live and the invariant is kept. |
| `PageAlloc.PageAllocator.FreeBlock` | kernel/memory/page_alloc.c:575-632 | A free of a tracked block lowers total minus free pages by 2^order; the invariant survives if and only if the order is the one of the allocation, and then exactly that block stops being live. Chunks are given back only when it was the last block of its chunk and more than two exist, and then as the tidying rule says. |
| `PageAlloc.PageAllocator.FreeInvented` | kernel/memory/page_alloc.c:553-587 | An unknown page inside a chunk is entered and freed: total minus free pages drops by 2^order, and a valid allocator is valid no more. |
| `PageAlloc.PageAllocator.FreeSmall` | kernel/memory/page_alloc.c:533-632 | For orders below 12 the invariant survives if and only if the page is ignored or a live block starts there with that order. |
| `PageAlloc.PageAllocator.PageFree` | kernel/memory/page_alloc.c:507-632 | The invariant survives a free if and only if the free is harmless: a null or misaligned address, an ignored page, a live block with its own order, or from order 12 on a run that touches no chunk and no other direct block. Freeing what was allocated undoes it; ignored frees change nothing; every other free below order 12 lowers total minus free pages by 2^order. |
| `Pmm.FreePagesDetermineRegions` | kernel/memory/pmm.c:31-60 | Disjoint regions with correct counters are determined, bit for bit, by their layout and their set of free pages. |
| `Pmm.FreeUndoesAlloc` | kernel/memory/pmm.c:262-348 | Freeing exactly the pages an allocation took restores every bitmap and counter. |
| `Pmm.PhysicalMemory.AddRegion` | kernel/memory/pmm.c:134-178 | A new region starts with all pages free and keeps the counters exact. |
| `Pmm.PhysicalMemory.AllocPages` | kernel/memory/pmm.c:215-319 | The lowest run in the first region that has one, found if and only if one exists; exactly those pages stop being free; free + allocated + reserved = total. |
| `Pmm.PhysicalMemory.FreePage` | kernel/memory/pmm.c:322-341 | Exactly the page becomes free; unmanaged and already free pages change nothing. |
| `Pmm.PhysicalMemory.FreePages` | kernel/memory/pmm.c:344-348 | Exactly the managed pages of the run become free. |
| `Pmm.PhysicalMemory.ReservePage` | kernel/memory/pmm.c:391-407 | Exactly the page stops being free; counters stay exact. |
| `Pmm.PhysicalMemory.ReserveRegion` | kernel/memory/pmm.c:351-388 | Exactly the pages that share a byte with the range, in any region, stop being free. |
| `PageTable.MadeBlock` | arch/riscv/mm/vmm_riscv.c:267-284 | For both formats, the entry built for a block decodes as that block at that level, with exactly the access to kernel and user code and the memory type that the attributes stand for, if and only if the attributes make a leaf (on Sv39: readable, or executable and not writable). |
| `PageTable.MadeTable` | arch/arm64/mm/vmm_arm64.c:298-335 | For both formats, the entry built for a table decodes as a pointer to that table. |
| `TableWalk.SamePath` | arch/riscv/mm/vmm_riscv.c:108-158 | Addresses in one region of a level reach the same table. |
| `TableWalk.MissingUnmapped` | arch/riscv/mm/vmm_riscv.c:108-158 | Where the kernel's walk finds a table missing, the hardware translates nothing in that region. |
| `TableWalk.WalkElsewhere` | arch/arm64/mm/vmm_arm64.c:109-160 | Writing one entry leaves the hardware walk of every address outside its region as it was. |
| `TableWalk.WriteEntry` | kernel/memory/vmm.c:148-149 | Writing a leaf entry into the table reached for an address gives exactly its region the new translation and keeps all tables well placed. |
| `TableWalk.WriteTable` | arch/riscv/mm/vmm_riscv.c:120-150 | Hanging an empty table changes no translation. |
| `TableWalk.EntryElsewhere` | kernel/memory/vmm.c:232-240 | Writing a block or page entry takes or frees no entry outside its region, at any level. |
| `TableWalk.TableElsewhere` | arch/riscv/mm/vmm_riscv.c:120-150 | Hanging an empty table takes no entry but those that contain the address. |
| `Vmm.MapEntry` | kernel/memory/vmm.c:239-240 | A block entry maps each address of its block to the physical base plus the offset, and no other address. |
| `Vmm.ExtendRange` | kernel/memory/vmm.c:161-255 | Adjacent mapped ranges combine to one mapped range. |
| `Vmm.RangeDetermines` | kernel/memory/vmm.c:161-255 | Any two ways to map the same range from the same tables give the same hardware translation of every address: greedy blocks equal page by page. |
| `Vmm.PlanAgainstPages` | kernel/memory/vmm.c:172-234 | The greedy plan finds its entries free if and only if page-by-page mapping does and no table stands where the plan wants a block: exactly then the two ways succeed together. |
| `Vmm.BlockAndPages` | kernel/memory/vmm.c:221-234 | A free block entry means free page entries below it; a used one that is no table means a used one at each page. |
| `Vmm.UnmapUndoesMap` | kernel/memory/vmm.c:258-279 | Mapping a page and unmapping it gives back the original translation of every address. |
| `Vmm.PageLookup` | kernel/memory/vmm.c:303-307 | The kernel's walk to the last level agrees with the hardware translation except under a block entry. |
| `Vmm.AddressSpace.WalkCreate` | arch/riscv/mm/vmm_riscv.c:108-158 | Reaches the table of a level, creating what is missing, without changing any translation; fails exactly on an entry in the way or when a table is missing and its memory cannot be had. |
| `Vmm.AddressSpace.MapBlock` | kernel/memory/vmm.c:221-241 | Maps exactly one block with the access its attributes grant, only where nothing was mapped; otherwise translations are unchanged. A free entry is always mapped unless a table on the way is missing and its memory could not be had. |
| `Vmm.AddressSpace.MapPage` | kernel/memory/vmm.c:128-158 | The same for one page, with the alignment checks. |
| `Vmm.AddressSpace.BestDepth` | kernel/memory/vmm.c:172-208 | The largest of 1 GB, 2 MB and 4 KB to which both addresses are aligned and which the remaining bytes fill. |
| `Vmm.ChoiceMeans` | kernel/memory/vmm.c:172-210 | The greedy choice in numbers, for both formats. |
| `Vmm.AddressSpace.MapRange` | kernel/memory/vmm.c:161-255 | On success every address of the range translates to paddr + (v - vaddr) with the access its attributes grant, and every other translation is unchanged. Unless memory for a table could not be had it succeeds if and only if no entry that the greedy plan wants is in use and the range fits the address space; on failure exactly the part before the first wanted entry that is in use, or whose table is missing, is mapped. A range that reaches 2^64 succeeds without mapping anything. |
| `Vmm.AddressSpace.MapUpTo` | kernel/memory/vmm.c:172-252 | The same of the loop alone, for any end address. |
| `Vmm.AddressSpace.MapPages` | kernel/memory/vmm.c:128-158 | The page-by-page reference: unless memory is exhausted it succeeds if and only if no page of the range is in use and the range fits; on failure a leading part is mapped. |
| `Vmm.AddressSpace.UnmapPage` | kernel/memory/vmm.c:258-279 | Succeeds if and only if the address is mapped by a page entry; then exactly that page is unmapped, by clearing its entry alone: the tables stay. |
| `Vmm.AddressSpace.VirtToPhys` | kernel/memory/vmm.c:298-312 | Equals the hardware translation for page mappings and 0 otherwise, also for addresses that a block maps. |
| `RadixNodes.GrowWf` | kernel/lib/radix_tree.c:75-116 | A new root above the old one changes no entry and keeps counts, parents and heights. |
| `RadixNodes.HangWf` | kernel/lib/radix_tree.c:138-156 | A new child changes no entry and keeps the tree well formed. |
| `RadixNodes.PutItemWf` | kernel/lib/radix_tree.c:158-170 | Writing a leaf slot with the right count changes exactly one key. |
| `RadixNodes.PruneWf` | kernel/lib/radix_tree.c:291-313 | Removing an empty node changes no entry. |
| `RadixNodes.LowerWf` | kernel/lib/radix_tree.c:212-246 | Dropping a root whose only child is its first changes no entry. |
| `RadixNodes.KeylessSpine` | kernel/lib/radix_tree.c:212-246 | A tree without keys whose nodes all lead to a key or to the leftmost spine is that spine, which shrinking removes. |
| `Radix.RadixTree.constructor` | kernel/lib/radix_tree.c:30-35 | The empty tree. |
| `Radix.RadixTree.Lookup` | kernel/lib/radix_tree.c:175-208 | Returns the entry of the finite map the tree stands for. |
| `Radix.RadixTree.Extend` | kernel/lib/radix_tree.c:75-116 | Raises the tree to the least height that can hold the key, changing no entry, also when memory runs out half-way; a tree that has the leaf of the key is left as it is. |
| `Radix.RadixTree.Insert` | kernel/lib/radix_tree.c:121-170 | Succeeds if and only if the key is absent, the item not null and memory suffices, which it does whenever the key's leaf exists; then exactly that key changes; a failed insert changes no entry. |
| `Radix.RadixTree.RemoveEmpty` | kernel/lib/radix_tree.c:291-313 | Removes emptied nodes upwards without changing an entry. |
| `Radix.RadixTree.Shrink` | kernel/lib/radix_tree.c:212-246 | Lowers the tree without changing an entry; a keyless tree without garbage ends with height 0. |
| `Radix.RadixTree.Delete` | kernel/lib/radix_tree.c:248-321 | Removes exactly the key; deleting the last key frees every node; max_key becomes 0 if the deleted key was the maximum. |
| `Radix.RadixTree.Replace` | kernel/lib/radix_tree.c:323-363 | Swaps the item of a present key; on an absent key whose leaf exists it fills the slot without counting it, which breaks the node. |
| `Radix.RadixTree.NextSlot` | kernel/lib/radix_tree.c:573-645 | Terminates and returns the least present key that is at least index and at most max_key. |
| `Radix.RadixTree.GangLookup` | kernel/lib/radix_tree.c:751-771 | Returns items each of which is next after the one before; fewer than asked only if none is left up to max_key. |
| `Radix.ChainOrder` | kernel/lib/radix_tree.c:627-628 | Iteration is strictly increasing if and only if it does not pass key 0xFFFFFFFF, after which it starts over. |
| `Radix.ChainComplete` | kernel/lib/radix_tree.c:751-771 | Without key 0xFFFFFFFF the keys returned are all present keys from the start up to the last one. |
| `Radix.BoundKept` | kernel/lib/radix_tree.c:315-317 | Inserting keeps max_key an upper bound; deleting keeps it if and only if the deleted key was not the recorded maximum or no key above 0 remains. |
| `SlabLayout.CalculateParameters` | kernel/memory/slab.c:77-107 | As many objects, each with its index, as fit behind the padded header of the first slab size from 4 KB to 256 KB that holds eight, or of 256 KB if none does. |
| `SlabLayout.SlabSize` | kernel/memory/slab.c:110-119 | The smallest of the sizes 4 KB to 256 KB that holds the bytes, or 256 KB. |
| `SlabLayout.LayoutFits` | kernel/memory/slab.c:77-151 | For every object size up to 128 KB and alignment 8 to 4096: at least one object, and header, padded object area and index array fit in the slab size recomputed at creation, which equals the size the count was settled for. |
| `Slab.PopChain` | kernel/memory/slab.c:316-318 | Taking the head of a free chain leaves the rest of the chain. |
| `Slab.PushChain` | kernel/memory/slab.c:376-379 | Returning an index that is not free extends the chain. |
| `Slab.DoubleFreeCycles` | kernel/memory/slab.c:376-379 | Returning an index that is free already leaves no finite chain from the head at all. |
| `Slab.WhichList` | kernel/memory/slab.c:386-401 | A slab is on the full, partial or empty list exactly as its free count says. |
| `Slab.OneObjectSlabs` | kernel/memory/slab.c:386-397 | With one object per slab the empty list is always empty. |
| `Slab.TakeKeeps` | kernel/memory/slab.c:310-326 | Handing out the chain's head keeps chains, lists and live objects in agreement; the object was not live. |
| `Slab.GiveKeeps` | kernel/memory/slab.c:375-402 | Taking a live object back keeps them in agreement. |
| `Slab.ReapKeeps` | kernel/memory/slab.c:404-413 | The slab given up has no live object. |
| `SlabCache.ObjectsDisjoint` | kernel/memory/slab.c:54-61 | Distinct objects of a cache do not overlap. |
| `SlabCache.Cache.constructor` | kernel/memory/slab.c:189-237 | A new cache is empty; objects and header are padded to the alignment and no further, the object count and the slab size are those of the sizing rules, and the shape holds the objects. |
| `SlabCache.Cache.LiveDisjoint` | kernel/memory/slab.c:281-338 | In every reachable state live objects do not overlap. |
| `SlabCache.Cache.CreateSlab` | kernel/memory/slab.c:110-165 | A new slab has every object free, in order. |
| `SlabCache.Cache.Alloc` | kernel/memory/slab.c:281-338 | Returns the object at the head of the chain of the first partial slab, else of the first empty one, else of a new slab, which is made only if no slab has a free object; fails only then and without memory; a slab left full heads the full list; statistics stay exact. |
| `SlabCache.Cache.Release` | kernel/memory/slab.c:375-415 | Frees exactly one object, which heads its slab's chain, and moves the slab to the head of the list it then belongs to; the slab that was empty before is given up if and only if the cache reaps and this one becomes empty too. |
| `SlabCache.Cache.Free` | kernel/memory/slab.c:341-415 | The object whose area holds the address is freed as above; an address in no slab in use changes nothing. |
| `SlabCache.FreeMoves` | kernel/memory/slab.c:386-402 | A full slab goes to the head of the partial list, a slab without objects in use to the head of the empty one, any other stays. |
| `SlabHash.Spreads` | kernel/memory/slab_lookup.c:38-57 | The pages of an aligned run of up to 256 pages hash to different buckets of a table of that many. |
| `SlabLookup.ChainCount` | kernel/memory/slab_lookup.c:264-305 | A bucket holds as many entries of a slab as the slab has tracked pages hashing to it. |
| `SlabLookup.RemovingEnds` | kernel/memory/slab_lookup.c:320-355 | Taking out one entry per page of the slab leaves exactly the other slabs' entries, also when several of its pages share a bucket or only some were entered. |
| `SlabLookup.RehashEnds` | kernel/memory/slab_lookup.c:208-226 | The rehashed table holds the same entries, each once, in its new bucket. |
| `SlabLookup.RecordedOverlap` | kernel/memory/slab_lookup.c:250-252 | Of two slabs in disjoint memory one is mistaken for the other at some object address if and only if it lies directly below and has the longer header. |
| `SlabLookup.TrueOwner` | kernel/memory/slab_lookup.c:250-252 | The true cache is the only owner by recorded ranges of every object address of a slab if and only if no slab of another cache with a longer header lies directly below it. |
| `SlabLookup.NewestWins` | kernel/memory/slab_lookup.c:285-292 | Right after a slab was entered wholly, every address of its recorded range is found to be its cache's, whatever other slabs claim it. |
| `SlabLookup.LookupTable.constructor` | kernel/memory/slab_lookup.c:60-121 | The bootstrap table is empty, with 64 buckets and a threshold of 48. |
| `SlabLookup.LookupTable.InsertPages` | kernel/memory/slab_lookup.c:264-305 | Enters the pages of a slab, from the first on, each in front of its chain; a failed allocation leaves the entered part tracked; a slab entered wholly is found at every address of its recorded range. |
| `SlabLookup.LookupTable.Rehash` | kernel/memory/slab_lookup.c:208-226 | A table of another size with the same entries: each bucket holds those that hash to it, last one first. |
| `SlabLookup.LookupTable.Grow` | kernel/memory/slab_lookup.c:153-234 | Doubles the table and sets three quarters of it as threshold, or leaves the table and sets four entries per bucket; tracking grows by the slabs the allocations create. |
| `SlabLookup.LookupTable.RemoveAll` | kernel/memory/slab_lookup.c:196-239 | The slabs destroyed when memory is given back, and no others, leave the index. |
| `SlabLookup.LookupTable.Resize` | kernel/memory/slab_lookup.c:153-242 | Doubles the table or raises the threshold; what is tracked changes only by the slabs the two allocations create and those that giving memory back destroys. |
| `SlabLookup.LookupTable.Insert` | kernel/memory/slab_lookup.c:245-306 | Below the threshold the table keeps its size; at the threshold it doubles with a threshold of three quarters, or, if memory could not be had, keeps its size with a threshold of four per bucket. The slab is then tracked and found, wholly or by its first pages if memory fails; other slabs stay, save those created or destroyed by the allocations of a resize. The kernel stops exactly if a bootstrap table is at its threshold or cannot get an entry. |
| `SlabLookup.LookupTable.Remove` | kernel/memory/slab_lookup.c:309-356 | Exactly the slab's entries go from the chains, whose order is kept. |
| `SlabLookup.LookupTable.Find` | kernel/memory/slab_lookup.c:359-388 | The cache of the first entry of the bucket whose recorded range covers the address; it is an owner by linear search over the recorded ranges, and there is none only if no page entered covers the address (for slabs entered wholly: if and only if no slab covers it). |
| `SlabLookup.LookupTable.Migrate` | kernel/memory/slab_lookup.c:391-467 | The copied table tracks the same slabs and those created meanwhile; the entry counter misses exactly the pages entered during the bucket allocation; the kernel stops exactly if memory fails or the slabs created meanwhile reach the threshold. |
| `IrqState.DistinctVirqs` | kernel/irq/irq_domain.c:217-354 | In every reachable state different (domain, hwirq) pairs have different virqs. |
| `IrqState.AttachOver` | kernel/irq/irq_domain.c:293-334 | Mapping the parents is independent of the child's half-made mapping. |
| `IrqMappings.AttachSound` | kernel/irq/irq_domain.c:217-354 | Creating a mapping keeps the invariant: every mapped virq has the descriptor that names it and its parent, a descriptor exists only for an allocated virq, and revmap agrees with linear_map. |
| `IrqMappings.AttachMaps` | kernel/irq/irq_domain.c:217-354 | Creation adds exactly the missing part of the path to the root, each with a virq that was free; existing mappings keep theirs. |
| `IrqMappings.FeasibleMeans` | kernel/irq/irq_domain.c:217-334 | A mapping can be made if and only if everything missing on its path is within its domain and as many virqs are free. |
| `IrqMappings.ParentMapped` | kernel/irq/irq_domain.c:293-334 | A hierarchy mapping's descriptor points to the parent's mapping of the translated number, or of the same number where the domain does not translate it. |
| `IrqMappings.ParentsDiffer` | kernel/irq/irq_domain.c:299-303 | Interrupts of a domain whose numbers differ for the parent, without translation any two, have different parent virqs. |
| `IrqMappings.DetachMaps` | kernel/irq/irq_domain.c:390-453 | Disposal removes exactly the mapping and all its parents. |
| `IrqMappings.DetachTables` | kernel/irq/irq_domain.c:441-452 | Disposal frees exactly the path's virqs and descriptors, except descriptors that a handler holds. |
| `IrqMappings.RoundTrip` | kernel/irq/irq_domain.c:217-453 | Creation followed by disposal is the identity if and only if nothing on the path was mapped or reserved before. |
| `IrqMappings.AttachDetach` | kernel/irq/irq_domain.c:343-350 | Creation followed by disposal in general: the path is gone from its first member that was mapped before, and so is a reservation at its root. |
| `IrqMappings.PurgeNothing` | kernel/irq/irq_domain.c:343-350 | That changes nothing if and only if the path was clean. |
| `IrqMappings.DetachKeeps` | kernel/irq/irq_domain.c:390-453 | Disposal keeps the invariant if and only if no handler is attached along the path and no other mapping hangs from it. |
| `IrqMappings.HandlerStays` | kernel/irq/irq_domain.c:446-452 | With a handler attached the virq is free while its descriptor remains. |
| `IrqMappings.HandlerKeeps` | kernel/irq/irq_desc.c:149-262 | Attaching and detaching handlers keeps the invariant. |
| `IrqMappings.Stranded` | kernel/irq/irq_domain.c:412-417 | A mapping that shares a parent with the disposed one is left without it. |
| `IrqDomain.IrqCore.constructor` | kernel/irq/irq_alloc.c:65-83 | The initial state: only virq 0 taken. |
| `IrqDomain.IrqCore.VirqAlloc` | kernel/irq/irq_alloc.c:85-114 | Takes the lowest free virq, or reports that there is none. |
| `IrqDomain.IrqCore.VirqFree` | kernel/irq/irq_alloc.c:153-175 | Frees exactly the virq; 0 and numbers out of range change nothing. |
| `IrqDomain.IrqCore.VirqAllocRange` | kernel/irq/irq_alloc.c:116-151 | Takes the lowest run of free virqs, found if and only if there is one. |
| `IrqDomain.IrqCore.VirqFreeRange` | kernel/irq/irq_alloc.c:177-201 | Frees exactly the run; runs that leave the bitmap change nothing. |
| `IrqDomain.RunRoundTrip` | kernel/irq/irq_alloc.c:116-201 | Taking a free run and freeing it restores the bitmap. |
| `IrqDomain.IrqCore.DescAlloc` | kernel/irq/irq_desc.c:54-107 | A blank descriptor where there was none, the present one otherwise, and nothing without memory or out of range. |
| `IrqDomain.IrqCore.DescFree` | kernel/irq/irq_desc.c:110-146 | Exactly the descriptor goes; with a handler attached the kernel stops and nothing goes. |
| `IrqDomain.IrqCore.RequestIrq` | kernel/irq/irq_desc.c:149-219 | A handler is attached if and only if the descriptor is present, its handlers may share and memory suffices; nothing else changes. |
| `IrqDomain.IrqCore.FreeIrq` | kernel/irq/irq_desc.c:222-262 | The descriptor is without handler once the last one went; nothing else changes. |
| `IrqDomain.IrqCore.CreateDomain` | kernel/irq/irq_domain.c:92-214 | A new domain has no mappings and changes no other; it fails exactly for a linear domain of size 0 or above 10000 and without memory. |
| `IrqDomain.IrqCore.FindMapping` | kernel/irq/irq_domain.c:357-387 | Returns the mapped virq or IRQ_INVALID, whether from the array, the reverse cache or the tree. |
| `IrqDomain.IrqCore.StoreMapping` | kernel/irq/irq_domain.c:251-291 | Stores in the array or tree; out of range nothing changes; a failed tree insertion loses a reservation. |
| `IrqDomain.IrqCore.CreateMapping` | kernel/irq/irq_domain.c:217-354 | Terminates; an interrupt that is mapped keeps its virq; success is exactly the specified attachment, with the parent's number as above; failure by range, virq or descriptor exhaustion anywhere up the hierarchy leaves everything exactly as before; a refusal by the map callback purges the path, which leaves everything as before if and only if the path was clean; failures for lack of memory and refusals happen only where an allocation or a callback failed. |
| `IrqDomain.IrqCore.MapParent` | kernel/irq/irq_domain.c:293-326 | Maps the parent's number; if that fails the child's half is undone. |
| `IrqDomain.IrqCore.Confirm` | kernel/irq/irq_domain.c:344-350 | A refused mapping is disposed of at once. |
| `IrqDomain.IrqCore.DisposeMapping` | kernel/irq/irq_domain.c:390-453 | Removes the mapping and its parents, as specified. |
| `IrqDomain.IrqCore.Dispose` | kernel/irq/irq_domain.c:390-411 | Numbers without descriptor or domain are ignored. |
| `MsiState.PlusBind` | kernel/irq/msi.c:200-220 | Mapping a reserved vector adds exactly one fresh virq. |
| `MsiState.PlusUnbind` | kernel/irq/msi.c:264-269 | Disposing of it takes exactly that away. |
| `MsiState.PlusMore` | kernel/irq/msi.c:200-223 | Several allocations of a device add up. |
| `MsiState.ReleasedSlots` | kernel/irq/irq_domain.c:789-810 | Releasing a range takes exactly its reservations; bound numbers stay. |
| `MsiState.PlusNothing` | kernel/irq/msi.c:249-283 | A state that adds no vectors is the same state. |
| `MsiState.Disposable` | kernel/irq/msi.c:264-269 | Disposing of a vector without handler keeps the invariant of the interrupt core. |
| `MsiState.OthersHeld` | kernel/irq/msi.c:264-269 | Giving up one vector leaves every other vector, of whatever device and domain, as it was. |
| `MsiState.HeldAfterAlloc` | kernel/irq/msi.c:166-247 | Another device's allocation leaves this device's vectors as they were, so they can still be given back. |
| `MsiState.StripUndoes` | kernel/irq/msi.c:250-283 | Giving up what an allocation added restores the state before it. |
| `Msi.FindFreeRange` | kernel/irq/irq_domain.c:705-746 | The lowest run of free hardware interrupts, found if and only if there is one. |
| `Msi.ReserveRange` | kernel/irq/irq_domain.c:749-786 | The whole range is marked, or the domain is exactly as before. |
| `Msi.AllocHwirqRange` | kernel/irq/irq_domain.c:813-863 | The lowest free run for tree and linear domains; failure changes nothing. |
| `Msi.FreeHwirqRange` | kernel/irq/irq_domain.c:789-810 | Only reservations go; mapped interrupts stay. |
| `Msi.VectorCount` | kernel/irq/msi.c:181-187 | The largest power of two at most max_vecs. |
| `Msi.MsiDevice.AllocVectors` | kernel/irq/msi.c:166-247 | Success: the lowest free run of the largest power of two, each mapped vector with its own fresh virq; unless an allocation or a callback failed, vector i has a virq if and only if more than i virqs were free before the call. Failure: interrupt core and device list exactly as before. |
| `Msi.MsiDevice.MapVector` | kernel/irq/msi.c:206-213 | Outside memory failure and refusal a vector gets a virq if and only if one was free; an invalid virq is recorded like any other. |
| `Msi.MsiDevice.Cleanup` | kernel/irq/msi.c:225-246 | The rollback restores the interrupt core and the list exactly. |
| `Msi.MsiDevice.FreeVectors` | kernel/irq/msi.c:250-283 | Gives every vector back: the interrupt core is the one before the call stripped of exactly this device's vectors, whatever other devices hold. |
| `FdtFormat.BytesAt` | kernel/drivers/fdt/fdt.c:230-300 | Each item's bytes are where its offset says, at a word boundary. |
| `FdtFormat.TreeDepth` | kernel/drivers/fdt/fdt.c:317-347 | A node's tokens balance at its end and not before. |
| `Fdt.Step` | kernel/drivers/fdt/fdt.c:240-299 | Reading a token and skipping its name or value leads exactly to the next item. |
| `Fdt.FirstSubnode` | kernel/drivers/fdt/fdt.c:204-304 | The offset of the first child, or -1. |
| `Fdt.NextSubnode` | kernel/drivers/fdt/fdt.c:307-367 | The offset of the next sibling, or -1. |
| `Fdt.Subnodes` | kernel/drivers/fdt/fdt.c:204-367 | Iteration visits exactly the direct children, in order. |
| `Fdt.SubnodeOffset` | kernel/drivers/fdt/fdt.c:426-437 | The first child with the name, or -1. |
| `Fdt.PathOffset` | kernel/drivers/fdt/fdt.c:673-723 | The node the path names, component by component, or -1. |
| `Fdt.ResolveJoin` | kernel/drivers/fdt/fdt.c:690-720 | For non-empty names without slash: resolving them joined by slashes is descending child by child, and fails on a name longer than 63 bytes. |
| `Fdt.FirstNamed` | kernel/drivers/fdt/fdt.c:426-437 | The child a name picks is the first with the name; there is none exactly if no child has it. |
| `Fdt.GetProp` | kernel/drivers/fdt/fdt.c:467-548 | The value and length of the node's first property with the name, never a descendant's. |
| `Fdt.PreOrderBegins` | kernel/drivers/fdt/fdt.c:612-670 | A tree's nodes in pre-order are the begin tokens of its block in order. |
| `Fdt.NextNode` | kernel/drivers/fdt/fdt.c:612-670 | The next node in block order, or -1, and its depth relative to the children of the starting node. |
| `Fdt.AllNodes` | kernel/drivers/fdt/fdt.c:612-670 | Walking from node to node visits the tree in pre-order. |
| `Fdt.ParentOffset` | kernel/drivers/fdt/fdt.c:551-609 | Never finds a parent: -1 for every node of every block. |
| `Witnesses.ConfluenceWitness` | kernel/memory/page_alloc.c:592-599 | A chunk of 4096 pages at page 4096 carves into two order-11 buddies; a sound chunk of that extent without live blocks holds one order-12 block instead. |
| `Witnesses.SplitWitness` | kernel/memory/page_alloc.c:278-281 | A chunk with all slots in use: halving its order-1 block loses page 129 to the table. |
| `Witnesses.WrongOrderRun` | kernel/memory/page_alloc.c:575-587 | One page allocated and freed with order 1: the invariant is lost. |
| `Witnesses.BlockLookupWitness` | kernel/memory/vmm.c:298-312 | Address 0 mapped by a 1 GB block: the hardware translates it, the kernel finds it unmapped. |
| `Witnesses.PlanWitness` | kernel/memory/vmm.c:221-234 | An empty table left where a 1 GB block would go: every page can be mapped, the range cannot. |
| `Witnesses.WrapRun` | kernel/memory/vmm.c:161-172 | Mapping the last page of the 64-bit space succeeds and maps nothing. |
| `Witnesses.LostKeyRun` | kernel/lib/radix_tree.c:315-317 | Keys 5 and 9, 9 deleted: max_key is 0 while key 5 is present. |
| `Witnesses.WrapAroundRun` | kernel/lib/radix_tree.c:627-628 | From key 0xFFFFFFFF gang lookup goes on with key 0. |
| `Witnesses.ReplaceRun` | kernel/lib/radix_tree.c:323-363 | Replacing absent key 1 next to key 0 breaks the tree. |
| `Witnesses.OneObjectWitness` | kernel/memory/slab.c:77-107 | Objects of 128 KB come one to a slab. |
| `Witnesses.DoubleFreeWitness` | kernel/memory/slab.c:376-379 | Object 0 of a new slab of two freed twice: no finite free chain remains. |
| `Witnesses.OwnerWitness` | kernel/memory/slab_lookup.c:250-252 | Two adjacent slabs with headers of 128 and 64 bytes: the first object of the upper one has two owners. |
| `Witnesses.MigrateRun` | kernel/memory/slab_lookup.c:391-467 | A slab created during the bucket allocation is tracked and not counted. |
| `Witnesses.ReservationWitness` | kernel/irq/irq_domain.c:434-437 | Mapping and disposing of a reserved hardware interrupt loses the reservation. |
| `Witnesses.StrandedWitness` | kernel/irq/irq_domain.c:412-417 | Two children of one parent interrupt: disposing of one leaves the other without its parent. |
| `Witnesses.HandlerRun` | kernel/irq/irq_domain.c:446-452 | A mapping with a handler disposed of: its descriptor remains without its virq. |
| `Witnesses.NoVirqRun` | kernel/irq/msi.c:206-213 | With no virq free a vector is handed out with an invalid number. |

## Left out

- Output on the UART, panics beyond the fact that they stop the kernel, print, dump and statistics functions.
- Spinlocks, interrupt masking, memory barriers, TLB and cache maintenance, interrupt controllers and timers.
- Pointers and aliasing: nodes, chunks, slabs and descriptors are looked up in maps by address or number, doubly linked lists are sequences, and bitmaps are sequences of booleans rather than 64-bit words.
- Conversion between physical and direct-map addresses, which is a bijection.
- Byte addresses in the physical memory manager and page allocator: pages are numbered, and only `PageAlloc.PageAllocator.PageFree` and `Pmm.PhysicalMemory.ReserveRegion` take byte addresses.
- Table levels are numbered from the leaf up for both formats.
- Canonical form of 64-bit virtual addresses: the model translates the bits the walk uses.
- The single-page fast path of the physical memory manager, which finds the same page as the general search.
- `page_alloc_multiple`, `page_free_multiple`, integrity checks, allocation statistics per order.
- Radix tags and tagged iteration: clear and delete do not maintain the summary bits.
- `kmalloc`, cache destruction, object zeroing and constructors, and the unreachable check for a partial slab without free objects.
- Lookup and collision counters of the slab index, and the memory of its bootstrap entries.
- `irq_domain_remove`, the default domain, domain names, chips, handlers other than the fact that some are attached and may share, and the `next_virq`, peak and parent_irq hints, which nothing reads.
- `irq_domain_alloc_irqs` and `irq_domain_free_irqs`, which tie descriptors to a domain without mapping a hardware interrupt.
- Message contents, masking and affinity of message-signalled interrupts, and the branch for a virq of 0, which no creation returns.
- The header, `reg` decoding and memory regions of the device tree; blocks are far below the size at which 32-bit offsets would wrap.
- Vmm.AddressSpace.MapRange: requires attributes that make a leaf entry; `PageTable.MadeBlock` states what happens without them.
- Vmm.AddressSpace.MapPage: requires attributes that make a leaf entry, as above.
- Vmm.AddressSpace.MapBlock: requires attributes that make a leaf entry, as above.
- Vmm.AddressSpace.MapPages: requires attributes that make a leaf entry, as above.
- Vmm.AddressSpace.MapUpTo: requires attributes that make a leaf entry, as above.
- SlabCache.Cache.constructor: requires an alignment that is a power of two up to 4096; the code accepts others, for which its rounding does not align.
- SlabLayout.CalculateParameters: an alignment above 4096 makes the size less the header negative here, where the code wraps at 64 bits.
- SlabCache.Cache.Free: requires that an address inside a slab in use belongs to a live object, which the code does not check; `Slab.DoubleFreeCycles` states what a double free does.
- SlabLookup.LookupTable.Insert: the slabs that allocations create and destroy meanwhile are parameters, and each is tracked at most once.
- IrqDomain.IrqCore.Dispose: requires the invariant, since after a shared parent was lost the code follows a pointer to freed memory.
- IrqDomain.IrqCore.VirqFreeRange: requires that virq + count stays below 2^32; a sum that wraps passes the bound check of the code, which then clears bits outside the bitmap.
- Msi.MsiDevice.AllocVectors: requires that the vectors the device holds are still mapped or reserved; a vector that lost its reservation can share its number with a new one.
- Msi.MsiDevice.FreeVectors: requires that each vector still has its mapping or none, without handler and without a mapping that hangs from it; `IrqMappings.DetachKeeps` states what disposal does otherwise.
- Fdt.FirstSubnode: for well-formed blocks, in which a node's properties precede its children; on others the code may read past the block.
- Fdt.NextSubnode: for well-formed blocks, as above.
- Fdt.PathOffset: the root node is the first item of the block.
