# A verified model of FerrumAlloc

FerrumAlloc is a C-compatible memory allocator written in Rust. It serves small requests from per-thread
slabs, larger ones from a two-level segregated fit (TLSF) heap, and lets any thread free any other
thread's slot through a lock-free stack. This project models those three layers in Dafny, proves each
operation against a specification, and proves what the specification guarantees over whole runs.

## Structure

**The TLSF heap (`src/tlsf.rs`).**
`Bins` has the bin arithmetic (log2, shift, round-up) and `Bits` the u32 bitmaps. `AbstractHeap` says what
`alloc` and `free` do to the blocks of the pool and to the order of the free lists, with no header, link
or bitmap in sight; `HeapTheorems` proves what runs of these operations guarantee. `PoolMemory` lays the
abstract heap out in memory: boundary-tag headers, doubly linked lists that overlay the payload of free
blocks, list heads, two levels of bitmaps. `Tlsf` is the allocator as a class that updates all of these in
place; every method ends in a state that represents the abstract heap after the abstract operation, so each
theorem about the abstract heap is a theorem about the allocator.

**Slabs and pages (`src/slab.rs`, `src/arena.rs`, `src/size_class.rs`).**
`AbstractSlab` is a thread's slab as pages with free slots in order and, per size class, the partial pages
in order. `ArenaLayout` is the address arithmetic, `SlabMemory` the representation by page records, lists
linked through them and u16 links inside free slots. `Arena` and `SlabAllocator` are the classes.
`ThreadCache` adds the drain of remotely freed slots, whose links lie in the memory being freed.

**Threads (`src/thread_cache.rs`, `src/api.rs`).**
`RemoteFree` is a transition system: any number of threads run `ferrum_malloc` (slab path) and
`ferrum_free`, one atomic access or one lock-protected or owner-only slab operation per step, interleaved
in any way. `RemoteFreeProofs` shows that every step keeps the bookkeeping invariant, `RemoteFreeTheorems`
what follows for every slot, `RemoteFreeRuns` what each call achieves. `SpinLock` models the lock and the
double-checked initialisation. `Routing` is each API call as a whole over the page records, the arena, every
thread's slab and stack, TLSF and the huge regions, null answers included; `RoutingProofs` shows that every
call keeps its invariant, `RoutingTheorems` what sequences of calls guarantee.

Pointers of the TLSF model are unit numbers, one unit being 16 bytes, counted from the pool base; addresses
of the slab model are byte addresses. Every memory word and every record the source reads or writes
is a word or a record of the model; ghost fields hold the abstract value each class represents.

The methods of the classes are tied to functions on abstract values (`AbstractHeap.Alloc`,
`AbstractSlab.Pop`, `AbstractSlab.FreeInOrder`, ...). A row below names the member whose contract states the
property; where that is a method, the rows about the abstract function say what the function means.

## Where the code and its documentation differ

The model follows the code.

- `src/api.rs:117` promises 16-byte alignment (and `src/api.rs:295` relies on it). Slots of the 8- and
  24-byte classes do not have it: `RoutingTheorems.MisalignedRun` is a run that breaks it,
  `RoutingTheorems.AlignedRequests` gives the exact sizes for which the promise holds, and
  `RoutingTheorems.MallocAlignment` shows it for every other kind.
- `src/slab.rs:24-25` gives `PageMeta` 24 bytes and `src/arena.rs:12-18` draws three metadata pages; the
  constants of the code are 32 bytes and 5 pages (`src/arena.rs:47-52`).
- `src/lib.rs:13-17` sends requests above 64 KB to the operating system; the code's threshold is 256 KB
  (`src/huge.rs:6`).
- `src/api.rs:372-375` documents a usable size for every allocation; bump-fallback blocks report 0
  (`RoutingTheorems.UsableOfMalloc`).

## Model

| member | source | states |
|---|---|---|
| Bits.SetBitBit | src/tlsf.rs:436-437 | Setting bit i of a bitmap word sets that bit and changes no other. |
| Bits.ClearBitBit | src/tlsf.rs:459-461 | Clearing bit i clears that bit and changes no other. |
| Bits.MaskFromBit | src/tlsf.rs:346-354 | Masking from s keeps exactly the bits at s and above. |
| Bits.LowestBit | src/tlsf.rs:351-359 | The number of trailing zeros of a non-zero word is the index of a set bit below which none is set. |
| Bits.SetBitValue | src/tlsf.rs:436-437 | Setting bit i adds 2^i unless it is set: the bitwise or with 1 << i. |
| Bits.ClearBitValue | src/tlsf.rs:459-461 | Clearing bit i takes 2^i away if it is set: the bitwise and with the complement of 1 << i. |
| Bits.MaskFromValue | src/tlsf.rs:346-354 | Masking from s gives the word divided by 2^s and multiplied back: the bitwise and with all ones shifted left by s. |
| Bins.BinIsInterval | src/tlsf.rs:166-171 | Bin (fl, sl) holds exactly the sizes from (16+sl)·2^fl up to but excluding (17+sl)·2^fl: a size maps to bin k if and only if it lies in bin k's interval. |
| Bins.MappingMonotone | src/tlsf.rs:166-171 | `mapping` is lexicographically monotone in the size. |
| Bins.MappingInRange | src/tlsf.rs:35-41 | A size from 16 on has a bin inside the 18 x 16 matrix if and only if it is below 2^22, so `insert_free` indexes in range exactly for those. |
| Bins.SearchIsExact | src/tlsf.rs:177-187 | A block has a bin at or above `mapping_search` of the request if and only if its size reaches the request rounded up to its bin step; saturation and the out-of-range answer included. |
| Bins.SearchSizeBounds | src/tlsf.rs:173-176 | The rounded-up request is at least the request and less than 17/16 of it, so every block found is large enough. |
| Bins.SearchInRange | src/tlsf.rs:340-344 | The searched bin is inside the matrix, or is the pair (18, 0) that `find_suitable` rejects. |
| AbstractHeap.AllocKeepsWellFormed | src/tlsf.rs:279-291 | `alloc` keeps the heap well formed: blocks tile the pool, no two free neighbours, each free block on the list of its own bin exactly once and nothing else on any list. |
| AbstractHeap.FreeKeepsWellFormed | src/tlsf.rs:298-320 | `free` keeps the heap well formed, through merges that resize blocks. |
| AbstractHeap.SuitableIsLargeEnough | src/tlsf.rs:339-370 | The block `find_suitable` chooses is a free block of at least the requested size. |
| AbstractHeap.AbsorbUndoesSplit | src/tlsf.rs:383-405 | Merging a block with the remainder split off it restores the block layout. |
| AbstractHeap.CarveKeepsWellFormed | src/tlsf.rs:373-415 | Splitting and marking a block that is off its list gives a well-formed heap again, whether or not the excess is split off. |
| AbstractHeap.MergePrevPending | src/tlsf.rs:484-500 | After both merges the freed block has no free neighbour, and only it is still to be filed. |
| HeapTheorems.FreeUndoesAlloc | src/tlsf.rs:279-320 | For every well-formed heap and size, a successful `alloc` followed at once by `free` of its result restores the heap: block layout and every free list in order, split or not. |
| HeapTheorems.AllocFailsExactly | src/tlsf.rs:279-291 | For a non-zero size, let a be the least multiple of 16 that holds it and m the least multiple of 2^(fl-4) from a on, where 2^fl is the power of two at or below a. `alloc` returns null if and only if every free block is smaller than m. |
| HeapTheorems.RoundedExists | src/tlsf.rs:177-187 | Every request has such a, fl and m, so the theorems stated with them are about every request. |
| HeapTheorems.AllocTakesLowestBin | src/tlsf.rs:339-370 | The block taken reaches m, is the first on the list of its bin, and every free block of a lower bin is smaller than m. |
| HeapTheorems.AllocSucceedsWithSlack | src/tlsf.rs:340-370 | A free block of at least 17/16 of the request, aligned up to 16, guarantees success. |
| HeapTheorems.ExactFitCanFail | src/tlsf.rs:340-370 | A fresh pool whose one block holds 528 bytes refuses a request of 528: without the slack a block that fits may be passed over. |
| HeapTheorems.AllocAddsOneLive | src/tlsf.rs:279-291 | A successful `alloc` makes one block live that was not and changes the place and size of no live block; a failed one changes nothing. |
| HeapTheorems.FreeRemovesOneLive | src/tlsf.rs:298-320 | `free` makes exactly its block not live and changes the place and size of no other live block. |
| HeapTheorems.WasteIsBounded | src/tlsf.rs:381-405 | The block handed out holds the request with less than 32 bytes to spare. |
| HeapTheorems.LivePayloadsDisjoint | src/tlsf.rs:373-415 | Live payloads are non-empty, lie inside the pool and are pairwise disjoint. |
| HeapTheorems.CanonicalLayout | src/tlsf.rs:298-320 | Two well-formed heaps over the same pool with the same live blocks have the same blocks: the physical layout is a function of the live set. |
| HeapTheorems.FreeAllLive | src/tlsf.rs:298-320 | Freeing a list of distinct live blocks leaves a well-formed heap whose live blocks are exactly the others. |
| HeapTheorems.FreeOrderIrrelevant | src/tlsf.rs:298-320 | Freeing the same set of blocks in any two orders gives the same layout. |
| HeapTheorems.FreeEverything | src/tlsf.rs:251-272 | Freeing every live block, in any order, leaves one free block that spans the pool. |
| HeapTheorems.BytesConserved | src/tlsf.rs:241-276 | Walking the pool visits each block once, and payloads plus headers sum to the whole pool up to the sentinel. |
| HeapTheorems.RunKeepsWellFormed | src/tlsf.rs:279-320 | Every run of `alloc` and `free` keeps the heap well formed over the same pool. |
| HeapTheorems.RunsAreCanonical | src/tlsf.rs:279-320 | Two runs from the same heap that leave the same blocks live leave the same layout. |
| HeapTheorems.RunThatFreesAll | src/tlsf.rs:251-272 | A run from the fresh pool that has freed everything is back to one free block of the original payload, header and payload summing to the original total. |
| HeapTheorems.RunKeepsUnfreed | src/tlsf.rs:279-320 | A block no call of the run frees is live at the end, where it was, with the size it had. |
| PoolMemory.HeaderUpdates | src/tlsf.rs:81-120 | Each of the five header setters changes the field it is named after and neither of the other two. |
| PoolMemory.PrevFlag | src/tlsf.rs:141-145 | `F_PREV_FREE` is set if and only if the left neighbour is free, and then `prev_phys_size` leads to it. |
| PoolMemory.NextFlag | src/tlsf.rs:467-470 | The free bit found after a block's payload is that of the right neighbour; the sentinel is never free. |
| PoolMemory.SplitHeaders | src/tlsf.rs:385-402 | The header writes of a split spell out the split layout: sizes, flags and `prev_phys_size` of block, remainder and the block after. |
| PoolMemory.AbsorbHeaders | src/tlsf.rs:472-478 | The header writes of a merge spell out the merged layout. |
| PoolMemory.TellNextHeaders | src/tlsf.rs:312-317 | After the right neighbour has been told, every `F_PREV_FREE` and `prev_phys_size` is right again. |
| PoolMemory.MarkUsedHeaders | src/tlsf.rs:407-412 | After a block is marked used and its neighbour told, every header is right again. |
| PoolMemory.UnlinkLinks | src/tlsf.rs:445-455 | Unlinking a block leaves all 288 lists doubly linked and in order, without that block, and touches link words of free blocks only. |
| PoolMemory.PushLinks | src/tlsf.rs:424-433 | Pushing a block puts it in front of its list, leaves the others alone and touches link words of free blocks only. |
| PoolMemory.BitsUpdated | src/tlsf.rs:435-463 | The bitmap updates keep a second-level bit set iff its list is non-empty and a first-level bit set iff its second-level word is non-zero. |
| PoolMemory.BitmapsFit | src/tlsf.rs:205-207 | Both bitmap levels stay inside 32 bits. |
| PoolMemory.RowSearch | src/tlsf.rs:346-351 | A hit in the searched row is the first non-empty list from the searched bin on. |
| PoolMemory.ColumnSearch | src/tlsf.rs:352-361 | Without a hit in the row, the first-level search finds the first non-empty list, or there is none. |
| PoolMemory.LayoutDetermined | src/tlsf.rs:418-500 | Two memories that represent the same heap have the same headers, sentinel, links and list heads. |
| PoolMemory.BitmapsDetermined | src/tlsf.rs:418-464 | Two sets of bitmaps that represent the same lists are equal. |
| Tlsf.TlsfAllocator.constructor | src/tlsf.rs:216-224 | A new allocator represents the empty heap: all bitmaps zero, all lists empty, no pool. |
| Tlsf.TlsfAllocator.Contains | src/tlsf.rs:228-231 | True exactly for offsets inside the pool, and so for every payload byte of every block. |
| Tlsf.TlsfAllocator.AddPool | src/tlsf.rs:241-276 | A region too small is ignored; otherwise the heap becomes one free block, filed, of the size left by header and sentinel, rounded down to 16. |
| Tlsf.TlsfAllocator.RemoveFree | src/tlsf.rs:441-464 | The block leaves its list; links, heads and bitmaps represent the list without it; memory changes in links of free blocks only. |
| Tlsf.TlsfAllocator.InsertFree | src/tlsf.rs:418-438 | The block is first on the list of its bin; links, heads and bitmaps represent that; memory changes in links of free blocks only. |
| Tlsf.TlsfAllocator.FindSuitable | src/tlsf.rs:340-370 | Returns and unlinks the front of the first non-empty list at or above the searched bin; with none, returns null and changes no word. |
| Tlsf.TlsfAllocator.SplitOff | src/tlsf.rs:385-402 | The cut block keeps the requested size and the rest becomes a free block with a correct header; memory outside the block and the next header is unchanged. |
| Tlsf.TlsfAllocator.PrepareUsed | src/tlsf.rs:373-415 | The block becomes live with the requested size, or its own when the excess cannot hold a block; the state is valid and no other live payload word changed. |
| Tlsf.TlsfAllocator.Alloc | src/tlsf.rs:279-291 | Returns the pointer and reaches the heap of the abstract `alloc`; headers, links, heads and bitmaps represent it; no word of a live payload changed. The block returned is live and has at least the bytes asked for and less than 32 more. |
| Tlsf.TlsfAllocator.MergeNext | src/tlsf.rs:467-481 | Absorbs a free right neighbour and takes it off its list, or changes nothing. |
| Tlsf.TlsfAllocator.MergePrev | src/tlsf.rs:484-500 | Is absorbed by a free left neighbour, found through the boundary tag, which leaves its list; returns the merged block. |
| Tlsf.TlsfAllocator.Free | src/tlsf.rs:298-320 | Null is ignored; otherwise reaches the heap of the abstract `free`, with headers, links, heads and bitmaps representing it and no word of another live payload changed. |
| Tlsf.TlsfAllocator.UsableSize | src/tlsf.rs:327-333 | The size recorded for the live block, 0 for null. |
| Tlsf.TlsfAllocator.WritePayload | src/tlsf.rs:298-333 | A program that writes any word of its own live payload leaves the allocator valid, the heap unchanged and all other live payloads unchanged. |
| Tlsf.TlsfAllocator.AllocThenFree | src/tlsf.rs:279-320 | In the concrete state too, `alloc` then `free` puts back every header, the sentinel, every link, every list head and both bitmap levels, and changes no live payload word. |
| SizeClass.BuildLut | src/size_class.rs:40-56 | Every entry of the lookup table is the smallest class that holds its size. |
| SizeClass.FindClass | src/size_class.rs:44-51 | The inner loop finds the smallest class that fits, or the number of classes when none does. |
| SizeClass.SmallestFitUnique | src/size_class.rs:38-39 | At most one class is the smallest that fits, so table and lookup function agree. |
| ArenaLayout.MetaRoundTrip | src/arena.rs:183-197 | A page's metadata pointer is not null, `meta_index` of it is the page, and all metadata lies between the first page and the first data page. |
| ArenaLayout.SlotRoundTrip | src/arena.rs:171-179 | The address of a slot lies in the arena and leads back to its page, its index and its link word. |
| ArenaLayout.SlotWordsDistinct | src/slab.rs:106-110 | Different slots have different link words, on one page and across pages of any classes. |
| Arena.Arena.constructor | src/arena.rs:82-110 | A new arena hands out pages from the first data page on and marks every page as free of a class and owner. |
| Arena.Arena.AllocPage | src/arena.rs:114-129 | Hands out the next page, with its metadata pointer and address, and counts it; a full arena changes nothing. |
| Arena.Arena.Alloc | src/arena.rs:133-160 | Takes just enough consecutive pages, marks them and no others as belonging to no class; size 0 or too few pages change nothing. |
| AbstractSlab.PopKeepsWellFormed | src/slab.rs:118-157 | Taking a slot makes exactly one free slot used, of the requested class, and a page stays on its class's list, once, iff it has a free slot. |
| AbstractSlab.PushKeepsWellFormed | src/slab.rs:160-198 | Freeing a used slot makes exactly that slot free and keeps the page lists right. |
| AbstractSlab.AddPageKeepsWellFormed | src/slab.rs:122-131 | A new page has all its slots free, is first of its class, and leaves the other pages alone. |
| AbstractSlab.PushUndoesPop | src/slab.rs:160-198 | Freeing the slot just taken restores the slab: pages, free slots in order, page lists in order. |
| SlabMemory.PopRep | src/slab.rs:101-112 | The record and list updates of an allocation represent the slab without that slot and touch records of its own pages only. |
| SlabMemory.PushRep | src/slab.rs:180-193 | The u16, record and list updates of a free represent the slab with that slot in front, and touch records of its own pages only. |
| SlabMemory.FreshRep | src/slab.rs:226-249 | An initialised page in front of its list represents the slab with that page added. |
| SlabMemory.UnlinkLists | src/slab.rs:266-287 | Unlinking a page keeps all class lists doubly linked, clears the page's links and changes only links of pages of that list. |
| SlabMemory.PushLists | src/slab.rs:251-264 | Pushing a page keeps all class lists doubly linked with the page in front. |
| SlabMemory.OtherSlabUnaffected | src/slab.rs:160-198 | What one owner does to its own pages leaves every other owner's slab represented as before. |
| SlabMemory.UsedSlotWrites | src/thread_cache.rs:120-124 | Whatever is written to any word of a slot in use, by its caller or by a thread that links it into a stack, the owner's records, page lists and embedded u16 links are as before. |
| SlabMemory.RepDetermined | src/slab.rs:28-43 | Two representations of one slab have the same list heads and the same records of its pages. |
| SlabMemory.OneResult | src/slab.rs:89-223 | Two ways from one state to the same slab, each touching only records of its pages, end in the same records and list heads: a fast form that reaches the slab of the simple form reaches its state. |
| SlabAllocator.Slabs.AllocNeedsPage | src/slab.rs:82-85 | True exactly when no page of the class has a free slot. |
| SlabAllocator.Slabs.AllocNoArena | src/slab.rs:89-112 | With a partial page, returns the same slot and reaches the same slab as `Alloc`, without the arena. |
| SlabAllocator.Slabs.Alloc | src/slab.rs:118-157 | Takes the first free slot of the first partial page, of a new page when there is none, or returns null when the arena is full; touches only records and words of pages it owns. |
| SlabAllocator.Slabs.InitPage | src/slab.rs:226-249 | The record is that of an empty page and the embedded links visit all slots in order and end at the null slot; no word outside the page changes. |
| SlabAllocator.Slabs.RemovePartialPage | src/slab.rs:266-287 | Takes a page off its doubly linked list, from any position, and clears its links. |
| SlabAllocator.Slabs.PushPartialPage | src/slab.rs:251-264 | Links a page in front of its class's list. |
| SlabAllocator.Slabs.FreeNoArena | src/slab.rs:202-223 | For an owned slot, reaches the slab and the memory of `Free`, without the arena. |
| SlabAllocator.Slabs.Free | src/slab.rs:160-198 | The slot goes in front of its page's free slots; a full page rejoins its list; pointers into no slab page change nothing. |
| SlabAllocator.Slabs.OwnedPage | src/arena.rs:193-204 | For every slot in use, the record's own `page_addr` equals the address computed from the metadata pointer, and class and owner are those of the slab. |
| SlabAllocator.Slabs.WriteSlot | src/thread_cache.rs:117-124 | A write by any thread to a slot in use leaves the slab valid and unchanged, and every other word too. |
| SlabAllocator.Slabs.AllocThenFree | src/slab.rs:89-223 | The fast allocation followed by the fast free of its result restores all records, all list heads and every word of memory. |
| AbstractSlab.FreeInOrderFrees | src/thread_cache.rs:85-95 | Freeing the detached nodes in order makes exactly those slots free and keeps the slab well formed. |
| ThreadCache.ChainSurvives | src/thread_cache.rs:91-93 | A free of a slot that is not on the rest of the chain leaves the rest of the chain as it was. |
| ThreadCache.Cache.DrainRemoteFrees | src/thread_cache.rs:85-95 | The drain terminates, empties the stack and equals freeing each node once, in order, although each free overwrites the bytes of that node's link; it touches records and words of its own pages only. |
| RemoteFreeProofs.FreeIsLegal | src/api.rs:221-226 | Whenever a thread is about to call `slab.free`, the slot is one that its own slab has handed out and not got back. |
| RemoteFreeProofs.StepKeeps | src/thread_cache.rs:105-133 | Every step of every thread keeps the bookkeeping invariant: stacks and chains acyclic and made of exactly the slots booked there, slabs well formed, owners right, lock respected. |
| RemoteFreeTheorems.OnePlace | src/api.rs:135-169 | Under the invariant every slot is found at one place: free on its page, held by a caller, in flight, on a stack, or in a chain being drained; never at two. |
| RemoteFreeTheorems.RunPartitions | src/api.rs:135-232 | In every reachable state of any number of threads each slot of every slab page is in exactly one place. |
| RemoteFreeTheorems.RunMoves | src/thread_cache.rs:85-133 | In every run, read off the states alone, each event takes every slot from its place to exactly the one `NextPlace` names. So a pushed slot is on the stack of its page's owner until that thread's swap detaches it, then in its chain until its walk frees it: never lost, never taken twice, moved by nobody else. |
| RemoteFreeTheorems.StepMoves | src/thread_cache.rs:85-133 | From any state that meets the invariant, each event determines the next place of every slot (`NextPlace`); a slot on a stack or in a chain is at its page's owner. |
| RemoteFreeTheorems.MallocReturnsFresh | src/api.rs:135-169 | The slot an allocation takes is held by no caller and is free on its page and nowhere else, or lies on a new page and is nowhere at all; it and no other slot comes into a caller's hands, and no other step hands out any. |
| RemoteFreeTheorems.RunMallocFresh | src/api.rs:135-169 | In every run, every slot `ferrum_malloc` hands out is at that moment in nobody's hands, in flight nowhere, on no stack and in no chain. |
| RemoteFreeTheorems.CasPushesOnTop | src/thread_cache.rs:120-131 | A successful compare-and-swap puts the node on top of the stack as it is at that moment, acyclic, even if the compared head had been drained, reallocated and pushed again. |
| RemoteFreeTheorems.DrainShrinks | src/thread_cache.rs:90-94 | A chain being drained loses its first node with each free of its owner and is touched by no other step; the walk does not end early. |
| RemoteFreeTheorems.RunRecordsStable | src/api.rs:211-217 | From the moment a page has an owner, the owner, class and address in its record read the same to the end of the run. |
| RemoteFreeTheorems.RecordsStable | src/slab.rs:226-233 | One step changes no page's owner, class or address, which is the page's, and a page's free slots only if its owner takes the step. |
| RemoteFreeTheorems.FreeGoesHome | src/api.rs:219-230 | A slot is freed locally only by its page's owner, and pushed only on the stack of the owner, who is another thread. |
| RemoteFreeTheorems.LockIsExclusive | src/api.rs:57-69 | At most one thread is between taking and releasing the arena lock. |
| RemoteFreeTheorems.NoThreadSticks | src/thread_cache.rs:85-133 | A thread inside a call can always step, or waits for a lock whose holder can: no guard of the model hides an error of the code. |
| RemoteFreeRuns.MallocDrains | src/api.rs:143-148 | In every run, a malloc that finds its thread's stack non-empty drains it before it takes a slot: between the load and the take it swaps the stack out, and afterwards frees to its slab every slot that was on the stack when it looked. |
| RemoteFreeRuns.MallocLockFree | src/api.rs:150-160 | In every run, a malloc that finds its stack empty and a free slot of the class on its own pages takes a slot without touching the lock, whatever other threads do. |
| RemoteFreeRuns.MallocTakesItsClass | src/api.rs:135-169 | In every run, the slot a malloc takes is on its own thread's slab, on a page of the class it was called with. |
| RemoteFreeRuns.LosesToASuccess | src/thread_cache.rs:121-132 | The push is lock-free: in every run, a compare-and-swap that finds another head than the one its thread last read lost to another thread's successful push on the same stack, or to the owner's swap, in between. |
| RemoteFreeRuns.EndsAlone | src/thread_cache.rs:85-133 | From any state that meets the invariant, a thread that runs alone while no other holds the lock ends the call it is in, within a bound linear in the length of its stack or chain: walks end, and the push is obstruction-free however stale the head it has read. |
| SpinLock.StepKeeps | src/api.rs:57-109 | Every access of every thread keeps the lock exclusive, taken exactly while a thread is inside, and the initialisation in order. |
| SpinLock.InitialisedOnce | src/api.rs:74-109 | In every run at most one thread holds the lock, the TLS key and each of the three globals are written at most once, and a thread that has seen the flag set finds all of them written. |
| SpinLock.LockComesFree | src/api.rs:57-109 | Whenever the lock is taken exactly one thread is inside, and at most seven steps of that thread release it. |
| Routing.FreeGoesBack | src/api.rs:199-259 | `ferrum_free` sends every live pointer to the component that produced it: a slot to the slab of the thread that allocated it, or to that thread's stack when another one frees it, TLSF blocks to TLSF, huge blocks to the huge path, bump blocks nowhere. |
| Routing.SizeComesFromOrigin | src/api.rs:377-410 | `ferrum_usable_size` reports the slot size, the block's payload size, the huge size, or 0 for bump blocks. |
| RoutingTheorems.StartExists | src/api.rs:93-104 | The state the API calls start from, a 128-page pool taken from the arena and managed as one free block, exists and is well formed, for any number of threads. |
| RoutingTheorems.MallocNothing | src/api.rs:125-127 | A request of 0 bytes gets null and changes nothing. |
| RoutingTheorems.MallocSmall | src/api.rs:135-169 | A request of 1 to 1024 bytes drains the thread's stack first. It gets a slot of the smallest class that holds it, on the thread's own slab, if and only if a page of the class has a free slot or the arena has a page left; otherwise it is served as a larger request is. |
| RoutingTheorems.DrainEffect | src/api.rs:143-148 | The drain empties the thread's stack, makes exactly the slots that were on it free and changes nothing else. |
| RoutingTheorems.SmallMallocDrains | src/api.rs:143-169 | After a request of 1 to 1024 bytes the thread's stack is empty, the other stacks are as before, and every slot that was on it is free on its page or is the slot returned. |
| RoutingTheorems.MallocLarge | src/api.rs:171-192 | A request of 1025 to 262143 bytes goes to TLSF and the arena without looking at slabs or stacks. |
| RoutingTheorems.LargeServes | src/api.rs:171-192 | TLSF serves the request if and only if some free block reaches the rounded size m; failing that the arena does if and only if the pages left have room for the bytes; failing both the answer is null and nothing changes. |
| RoutingTheorems.MallocHuge | src/api.rs:131-133 | A request of 262144 bytes or more gets a region of its own, its pointer one page into it, and touches no other component; if the operating system refuses, the answer is null and nothing changes. |
| RoutingTheorems.FreeEffect | src/api.rs:199-259 | What `ferrum_free` does for each kind of live pointer: a slot of the caller's own slab is free again and no other slot of any slab changes; another thread's slot goes on top of its owner's stack; a TLSF block is freed and no other live block changes; a region is unmapped; a bump block stays where it is. Nothing else changes. |
| RoutingTheorems.FreeNull | src/api.rs:200-202 | Freeing null changes nothing. |
| RoutingTheorems.CallReturns | src/api.rs:124-259 | Every call a caller may make, with any size that does not overflow or any live pointer and from any thread, returns. |
| RoutingTheorems.StepKeeps | src/api.rs:124-259 | Every API call keeps the invariant; `ferrum_malloc` adds one pointer that was not live, whichever component serves it, or answers null and adds none; `ferrum_free` takes away exactly its own. |
| RoutingTheorems.RunMallocFresh | src/api.rs:124-192 | In every run of API calls by any threads `ferrum_malloc` returns null or a pointer that is not live, and a pointer stops being live by its own free only. |
| RoutingTheorems.LiveBlocksApart | src/api.rs:124-192 | Two different live pointers have disjoint bytes: slots over their slot size, TLSF blocks and regions over their payload, bump blocks over the bytes requested. |
| RoutingTheorems.Placed | src/api.rs:124-192 | A slot lies inside a handed-out page of its class; a TLSF block inside the 512 KB pool; a bump block inside the arena, below the next free page, over pages that belong to no size class; a huge block outside the arena. |
| RoutingTheorems.RunBlocksApart | src/api.rs:124-192 | In every reachable state the blocks of different live pointers do not overlap, whichever components produced them. |
| RoutingTheorems.RunKeepsBlock | src/api.rs:124-259 | From the call that returned it until its own free, a block stays live with the same origin and the same bytes, at least as many as requested, whatever any thread allocates or frees meanwhile. |
| RoutingTheorems.UsableOfMalloc | src/api.rs:377-410 | The size reported for a pointer just returned: for a slot the smallest of the 22 slot sizes that holds the request; for a TLSF block a multiple of 16, less than 32 bytes above the request; for a huge block a multiple of 4096, less than 4096 above it; 0 for a bump block. |
| RoutingTheorems.MallocThenFree | src/api.rs:124-259 | `ferrum_malloc` followed at once by `ferrum_free` on the same thread restores the globals as they were after the drain and, if the slab had to grow, after the new page; only a bump block keeps its pages. |
| RoutingTheorems.SlotIsReused | src/api.rs:143-166 | A slot that its thread frees at once is the one its next request of the same class gets. |
| RoutingTheorems.RunRoutes | src/api.rs:199-410 | In every reachable state, a free by any thread is routed to the component and the thread the pointer came from, and `ferrum_usable_size` is the length of its block, 0 for bump blocks. |
| RoutingTheorems.RunLosesNothing | src/api.rs:124-259 | In every reachable state each used slot of each slab has a live pointer of its own or is on its owner's stack, each used TLSF block has its live pointer and each region has its own. |
| RoutingTheorems.AllFreed | src/api.rs:199-259 | When nothing is live and the stacks are empty, the pool is one free block of its original size, every slot of every slab is free and no region is mapped. |
| RoutingTheorems.MallocAlignment | src/api.rs:117 | Large, bump and huge pointers are multiples of 16; a slab pointer is one if and only if its class is a multiple of 16 or its slot index is even. |
| RoutingTheorems.AlignedRequests | src/api.rs:115-118 | Every slot that may serve a small request is 16-aligned if and only if the request is of 9 to 16 bytes or of more than 24. |
| RoutingTheorems.MisalignedRun | src/api.rs:117 | A run of two requests of 8 bytes on a fresh allocator: the second pointer is 8 past a multiple of 16. |

## Left out

- Operating-system memory, thread-local storage and symbol hooking (`src/platform.rs`, `src/dllmain.rs`): foreign calls; regions are assumed fresh, page-aligned and disjoint, and `Arena::new` to succeed.
- Weak memory orderings: steps of `RemoteFree` and `SpinLock` are interleaved over sequentially consistent memory.
- The steps of one slab operation are not interleaved with other threads: they touch data that only the owner, or the holder of the lock, reads or writes. What such a free writes into a slot is any word in `RemoteFree`, and exactly the u16 of the code in `SlabAllocator`.
- Threads without a cache, exhaustion and wrap-around of thread ids (`src/thread_cache.rs:55-58`) and the global slab they would use (`src/api.rs:244-247`): every thread has a registered cache with an id of its own.
- `src/huge.rs` beyond a region, assumed to overlap neither the arena nor another region, whose header records its total size; the magic number of the header (`src/huge.rs:42`).
- Fairness: a thread may lose its compare-and-swap to others, or spin on a lock that others keep taking, for ever; the code does not promise otherwise.
- `Routing` takes API calls as a whole, one after the other; the interleaving of their steps is the subject of `RemoteFree`.
- Bytes of a bump block are never reused: `ferrum_free` ignores it (`src/api.rs:242-250`), so `RoutingTheorems.AllFreed` says nothing about arena pages.
- Tlsf.TlsfAllocator.AddPool: is stated for an allocator without a pool and for less than 2^22 bytes of payload, because a larger block has no list (`src/tlsf.rs:421`) and a second pool replaces the bounds `contains` checks.
- Tlsf.TlsfAllocator.Alloc: is stated for sizes whose alignment does not overflow usize, as for all of the allocator's size arithmetic.
- Arena.Arena.Alloc: sizes are unbounded naturals, so the overflow of the page count near usize::MAX is not modelled.
- Page records are kept apart from the words of the data pages; that the metadata pages hold nothing else is not modelled.
- `Arena::reset` and the statistics accessors of `src/arena.rs`, which no API function calls.
- `ferrum_realloc`, `ferrum_calloc`, `posix_memalign` and the C names: compositions of `ferrum_malloc`, `ferrum_free` and a copy. `ferrum_realloc` of a bump-fallback block copies a length it does not know (`src/api.rs:363`).
- The size-class table beyond what the slab needs, benchmarks, latency measurements and the fuzz harness.
