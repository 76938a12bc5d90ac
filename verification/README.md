# A verified model of Athomux internals

This project models the parts of the kernel and its library whose correctness is not visible from any one function,
and proves what they promise.

* **The heap**: dlmalloc in the build the kernel uses, on top of the kernel's own `sbrk`. The heap is one memory of
  32-bit words. Chunk heads, feet, list and tree links and user data all live in it, so that every claim that something
  does not change is argued from addresses. The layers build on each other: index and bit macros (`BinIndex`, `Bitmaps`,
  `WordValues`, `TreeIndexBits`), one tree bin (`Rings`, `Tries`, `TreeBins`, `TreeInsert`, `TreeSearch`), small bins
  (`SmallBins`), all bins (`BinSets`), the chunks of the segment with their tags (`Layouts`, `LayoutOps`), the whole
  heap (`HeapInv`, `ChunkOps`), and the entry points (`SysAlloc`, `Malloc`, `FreeChunk`, `Realloc`, `Memalign`,
  `Overrun`). `Client` is what a user of the heap may rely on: any run of calls, with any bytes written in between,
  behaves like a store of separate blocks.
* **64-bit division** by 32-bit steps (`Division`).
* **Page reference counts and page trees** (`PageTree`): free list, share counts, copying and freeing two-level trees.
* **The additive-feedback random number generator** (`Random`): one table in place, two pointers, saved and resumed
  states, against a linear recurrence.
* **Number output and input** (`Doprnt`, `Strtoll`).
* **The pointer cache** over the default combined operations (`PointerCache`).
* **Strategy text** (`StrategyText`, `StrategyRoundTrip`, `StrategyAddr`, `StrategyRecords`): the parser and the
  printer for bricks, as functions on texts and as the code that links records in a buffer, and a writer that puts out
  actions too, which the parser reads back.

Where the C code changes state step by step, so do the methods here, and each is proved against a specification; what
the code promises is then proved about the specification. The heap invariant (`HeapInv.Heap`) is the prose of
`trunk/src/x86_malloc.c:564-603` and the executable checks of `trunk/src/x86_malloc.c:1551-1812`: the chunks tile the
segment up to `top`; every `pinuse` bit equals the in-use bit of the chunk before; every free chunk's foot equals its
size; no two free chunks touch; every free chunk other than `dv` and `top` is in exactly one bin, that of its size; and
a map bit is set if and only if its bin is not empty. A clear bit means an empty bin whatever the header says.

## Findings

What the code, or its documentation, promises and does not keep. Each has its exact condition.

* **The first segment can be overrun.** If the very first request is for 2^32 - 4147 bytes or more (and below the limit
  above which requests are refused), its size rounded up to pages is 2^32, that is 0. The kernel grants what is left to
  ask for, top's size wraps around, and the block handed out lies beyond the segment: `Overrun.OverrunsExactly`,
  `Overrun.BeyondSegment`. It cannot happen once there is a segment.
* **Alignments above 2^31 never end.** `internal_memalign` doubles a 32-bit word until it is large enough:
  `Memalign.LoopForever`. Up to 2^31 it finds the least power of two (`Memalign.AlignmentLeast`).
* **`setstate` on the array in use loses the place.** `trunk/src/libc/random.c:352-353` says it is fine. Word 0 is
  read before it is brought up to date; the generator goes on where it was if and only if word 0 happens to be up to
  date, or the numbers look the same from both places: `Random.SetStateInUse`, `Random.SeedDrawSetState`,
  `Random.SameArrayLosesPlace`.
* **`strtoll` does not skip a plus sign**, so a positive number printed with the `+` flag is read as 0, and nothing else
  is read wrongly: `Doprnt.RoundTrip`, `Strtoll.ParsePlus`.
* **`%#p` puts out the prefix twice**, so a non-zero pointer is read as 0: `Doprnt.UnsignedReadBack`.
* **A negative `*` width turns the minus flag around.** ISO/IEC 9899:1999, section 7.19.6.1, takes it as the minus flag:
  `Doprnt.StarTurns`.
* **Printed bricks are not always read back.** Attributes of the brick itself are printed with a brace that the parser
  refuses; actions, inactive bricks and a leading `=` of a value are lost; an input with two targets is refused:
  `StrategyRoundTrip.RoundTrip`, `StrategyRoundTrip.SameBrick`.
* **The action of a connection and the active bit of its connector share a bit.** The parser puts the action of a
  `connect` line at bits 4 to 6 of the flags, and bit 4 is the active bit: for an active connector, plain `==` counts as
  the creation of the connection and `/=` as `+=`; an odd action makes an inactive connector active. Both come back as
  written if and only if the connector is active and the action odd, or neither: `StrategyRoundTrip.FlagsFaithful`.
* **`convert_logaddr` misses overflows.** It notices one only behind a digit of 8 or more; 2^64 is read as 0:
  `StrategyAddr.AddrExactly`, `StrategyAddr.NotNoticed`.
* **The pointer cache can leave a reservation behind** if the nest succeeds with less than was asked for, or gives an
  unaligned address, and in no other case: `PointerCache.Run`.
* **Trimming never releases memory** with this `sbrk`, which refuses the negative increment as a large one:
  `SysAlloc.SysTrim`.
* `page_align` and `granularity_align` add a whole page even to what is aligned already
  (`trunk/src/x86_malloc.c:1078-1083`); the model keeps that.

## Model

| member | source | states |
|---|---|---|
| Bitmaps.Bit2IdxInvertsIdx2Bit | trunk/src/x86_malloc.c:1312-1322 | the portable compute_bit2idx gives back i from idx2bit(i), for every index |
| Bitmaps.LeastBitIndex | trunk/src/x86_malloc.c:1312-1327 | least_bit followed by compute_bit2idx yields a bit that is set in the map, and no lower one is |
| Bitmaps.LeftBitsAt | trunk/src/x86_malloc.c:1286-1330 | left_bits(idx2bit(k)) has exactly the bits above k |
| Bitmaps.Mark | trunk/src/x86_malloc.c:1288-1295 | the marked map stands for the old set of bins and the one index |
| Bitmaps.Clear | trunk/src/x86_malloc.c:1288-1296 | the cleared map stands for the old set without the one index |
| Bitmaps.First | trunk/src/x86_malloc.c:1312-1327 | the lowest non-empty bin of a non-zero map |
| Bitmaps.FirstAbove | trunk/src/x86_malloc.c:2654-2724 | the lowest non-empty bin above idx, and found if and only if there is one |
| BinIndex.TreeIndexRange | trunk/src/x86_malloc.c:1235-1281 | compute_tree_index(S) is i with minsize(i) <= S < minsize(i + 1), the last bin being open above |
| BinIndex.TreeIndexUnique | trunk/src/x86_malloc.c:1235-1281 | and no other i has that property: the bins partition the large sizes |
| BinIndex.LaterBinLarger | trunk/src/x86_malloc.c:2654-2763 | every size of a later bin is larger than every size of an earlier one |
| BinIndex.FirstKey | trunk/src/x86_malloc.c:1269-1275 | S << leftshift_for_tree_index is the offset of S in its bin's range, moved to the top of the word |
| BinIndex.KeyStep | trunk/src/x86_malloc.c:1985-2005 | the sign bit of the key says which half of the range the size is in, and shifting the key left gives the key for that half |
| TreeIndexBits.PortableForSize | trunk/src/x86_malloc.c:1249-1266 | the portable compute_tree_index, bit for bit on machine words, gives the same index as the bsrl one for every 32-bit size |
| WordValues.ShlMultiplies | trunk/src/x86_malloc.c:1273-1281 | a left shift of a machine word multiplies by a power of two modulo 2^32; this ties the word-level macros to numbers |
| WordValues.OrAdds | trunk/src/x86_math64.c:153-165 | the or of two words with no bit in common is their sum |
| TreeBins.UnlinkLargeChunk | trunk/src/x86_malloc.c:2038-2107 | the bin holds exactly the other chunks, as a trie with its ring, parent and child links and its order of sizes intact; the map bit is cleared precisely when the bin is left empty; no word outside the bin changes |
| TreeBins.TakeReplacement | trunk/src/x86_malloc.c:2041-2067 | x is replaced by its ring neighbour, or else by the deepest leaf of its subtree, whose links are cut out cleanly |
| TreeBins.TakePlace | trunk/src/x86_malloc.c:2068-2105 | the replacement takes over x's parent and children |
| TreeBins.WalkToLeaf | trunk/src/x86_malloc.c:2052-2062 | the loop ends at a leaf below x, and the pointer to it is the one found |
| TreeInsert.InsertLargeChunk | trunk/src/x86_malloc.c:1970-2012 | the bin holds exactly one chunk more, as a trie of the same kind, in the place its size belongs to; the map bit is set |
| TreeInsert.FindPlace | trunk/src/x86_malloc.c:1985-2005 | the walk ends at the node of the same size, or at the empty child pointer where the size belongs |
| TreeSearch.Descend | trunk/src/x86_malloc.c:2656-2683 | after the walk down one bin, what can still be the best fit lies in the subtree found last: the deepest right subtree not taken |
| TreeSearch.SmallestFrom | trunk/src/x86_malloc.c:2695-2702 | the leftmost path from a subtree meets a chunk that is smallest in it |
| TreeSearch.BestFitLarge | trunk/src/x86_malloc.c:2654-2702 | over all tree bins: the candidate is a chunk of the least size that is no less than nb, and there is none only if no tree chunk is large enough |
| TreeSearch.BestFitSmall | trunk/src/x86_malloc.c:2727-2745 | for a small request: the smallest chunk of all tree bins |
| TreeSearch.TremTest | trunk/src/x86_malloc.c:2667-2668 | the comparison trem < rsize on wrapped 32-bit differences means: large enough, and better than the candidate |
| SmallBins.InsertSmallChunk | trunk/src/x86_malloc.c:1899-1915 | the chunk becomes the first of its circular list; the header is read only if the map bit is set |
| SmallBins.UnlinkSmallChunk | trunk/src/x86_malloc.c:1918-1935 | the list without the chunk; the last chunk clears the map bit and leaves the header stale, which then says nothing |
| SmallBins.UnlinkFirstSmallChunk | trunk/src/x86_malloc.c:1938-1952 | the same for the first chunk of a list |
| BinSets.InsertSmall | trunk/src/x86_malloc.c:1899-1915 | all 64 bins stay in order, and together hold exactly one chunk more |
| BinSets.UnlinkSmall | trunk/src/x86_malloc.c:1918-1952 | all 64 bins stay in order, and together hold exactly one chunk less |
| BinSets.InsertLarge | trunk/src/x86_malloc.c:1970-2012 | the same for a chunk of a tree bin |
| BinSets.UnlinkLarge | trunk/src/x86_malloc.c:2038-2107 | the same for a chunk of a tree bin |
| LayoutOps.AllocSplit | trunk/src/x86_malloc.c:1556-1610 | splitting a free chunk keeps the tiling, all tags and feet, and that no two free chunks touch |
| LayoutOps.FreeMerge | trunk/src/x86_malloc.c:1596-1615 | a run of a free chunk, the freed one and a free chunk becomes one chunk with correct head, foot and pinuse bits around it |
| LayoutOps.FreeToTop | trunk/src/x86_malloc.c:1557-1569 | a run that reaches top becomes part of it |
| LayoutOps.AllocTop | trunk/src/x86_malloc.c:1557-1569 | a chunk cut from the front of top, with both heads written |
| LayoutOps.CutLive | trunk/src/x86_malloc.c:1585-1594 | cutting a chunk in use into two in use keeps all tags |
| LayoutOps.GrowLive | trunk/src/x86_malloc.c:1585-1594 | growing the last chunk in use into top keeps all tags |
| ChunkOps.UnlinkChunk | trunk/src/x86_malloc.c:2115-2117 | a binned free chunk is in no bin afterwards; everything else about the heap stands |
| ChunkOps.InsertChunk | trunk/src/x86_malloc.c:2111-2113 | a free chunk that was in no bin is in exactly the bin of its size |
| ChunkOps.ReplaceDv | trunk/src/x86_malloc.c:1956-1964 | the new designated victim replaces the old one, which is binned |
| ChunkOps.UseTop | trunk/src/x86_malloc.c:3166-3176 | top gives up its first nb bytes |
| SysAlloc.Sbrk | trunk/src/x86_mem.c:308-320 | grants exactly what fits below KERNEL_DATA_SPACE, at the end of what was granted before |
| SysAlloc.AskedExactly | trunk/src/x86_malloc.c:2387-2452 | for every request: what is asked of the kernel is nb plus the foot and one byte, less topsize where the segment is extended, rounded up to the next page boundary past it (0 if that is 2^32), and the first time what is missing to a page boundary besides |
| SysAlloc.GrantedExactly | trunk/src/x86_malloc.c:2387-2476 | so a request that top cannot serve is granted enough if and only if what it lacks is less than the whole pages the kernel has left; topsize counts as long as no extension has failed |
| SysAlloc.FirstGrantedExactly | trunk/src/x86_malloc.c:2387-2452 | and the attempt to extend in place, or to begin, is granted if and only if it was never refused and there are pages behind the gap to a page boundary |
| SysAlloc.MoreCore | trunk/src/x86_malloc.c:2387-2476 | both attempts to get memory: memory is got if and only if the kernel grants one of the two sizes, and it is the size asked first that it grants if it can; noncontiguous is set exactly if that was not granted |
| SysAlloc.FirstSegment | trunk/src/x86_malloc.c:2480-2496 | first-time initialisation leaves a heap in order, with top and its foot the whole segment, unless top's overhead does not fit |
| SysAlloc.AppendSegment | trunk/src/x86_malloc.c:2498-2527 | a later extension is always an append to the only segment: the heap stays in order and top grows; a prepended or added segment does not occur |
| SysAlloc.Enough | trunk/src/x86_malloc.c:2387-2529 | an extension for a request that did not wrap around leaves top larger than the request, if and only if the request is within KERNEL_DATA_SPACE |
| SysAlloc.AddSpace | trunk/src/x86_malloc.c:2478-2527 | after the middle of sys_alloc there is one segment that starts at memBase, sbrk_size has grown by what was granted, noncontiguous is set exactly if the first attempt was not granted, and footprint, segment size and sbrk_size agree |
| SysAlloc.SysAlloc | trunk/src/x86_malloc.c:2356-2543 | succeeds if and only if the bytes that are missing are less than the whole pages the kernel has left; sbrk_size and noncontiguous afterwards; the heap stays in order and live chunks keep their words; or else, for a first request that wraps around, the heap overruns its segment |
| SysAlloc.SysTrim | trunk/src/x86_malloc.c:2588-2649 | never releases anything with this sbrk: brk does not change |
| Overrun.OverrunsExactly | trunk/src/x86_malloc.c:2387-2496 | before the first segment exists, a request overruns it if and only if it has a size of WORD - 4147 up to MAX_REQUEST, the contiguous attempt is made, and memory starts close enough to a page boundary |
| Overrun.BeyondSegment | trunk/src/x86_malloc.c:2356-3186 | such a request does come about, and the block handed out reaches beyond the segment |
| Malloc.RequestSizeLeast | trunk/src/x86_malloc.c:670-680 | the chunk size for a request is a multiple of 8, at least 16, and has room for the bytes and the head word |
| Malloc.RequestSizeMinimal | trunk/src/x86_malloc.c:670-680 | no smaller chunk would do |
| Malloc.ChooseExact | trunk/src/x86_malloc.c:3091-3101 | a remainderless chunk of a small bin is the choice, one of the exact size before one 8 bytes larger, and leaves the designated victim alone |
| Malloc.ChooseNext | trunk/src/x86_malloc.c:3103-3128 | without one, and with too small a designated victim, every chunk of the next small bin that is not empty is a best fit of all free chunks |
| Malloc.ChooseTree | trunk/src/x86_malloc.c:3130-3134 | with no such bin, a best fit of the tree bins is one of all free chunks |
| Malloc.TakeNext | trunk/src/x86_malloc.c:3104-3128 | the chunk is one of that bin; its rest is a whole chunk, and becomes the designated victim |
| Malloc.TmallocLarge | trunk/src/x86_malloc.c:2654-2724 | returns a tree chunk of minimum size that is large enough, or 0 exactly if none is or the designated victim fits at least as well |
| Malloc.TmallocSmall | trunk/src/x86_malloc.c:2727-2763 | returns the smallest tree chunk, split if what is left is a chunk |
| Malloc.SmallRequest | trunk/src/x86_malloc.c:3083-3135 | the chunk taken is the one that sizes alone decide: a remainderless one of a small bin, the designated victim if it is large enough, the best fit of all free chunks; the designated victim afterwards; what finds no chunk here finds none that is large enough |
| Malloc.LargeRequest | trunk/src/x86_malloc.c:3138-3164 | the chunk taken is the best fit of all free chunks, the designated victim before others of its size |
| Malloc.Dlmalloc | trunk/src/x86_malloc.c:3056-3186 | succeeds if and only if a free chunk or top fits or the kernel has pages for what is missing; the block is a new chunk of size in [nb, nb + MIN_CHUNK_SIZE); which free chunk serves it and what becomes of the designated victim, by sizes alone, for small and large requests; top, or memory from the kernel, only if none fits; the heap invariant and the words of all live chunks are kept; all but for a first request that wraps around, whose outcome is stated instead |
| FreeChunk.Merged | trunk/src/x86_malloc.c:3205-3280 | the freed chunk and its free neighbours become one chunk; heads, foot and bits are those of the merged layout |
| FreeChunk.ConsolidateForward | trunk/src/x86_malloc.c:3232-3280 | the four ways on from the chunk behind: into top, into the designated victim, with a binned chunk, or alone |
| FreeChunk.Dlfree | trunk/src/x86_malloc.c:3188-3286 | for every chunk in use: the heap stays in order, the live chunks are the others, and their words do not change; the designated victim is the chunk that has the bytes of the one before, or none once they are top's; trimming is disabled exactly if top grew beyond the threshold |
| Realloc.ClientWrite | trunk/src/x86_malloc.c:564-603 | a client that writes only within its block leaves the heap in order |
| Realloc.CopyBytes | trunk/src/x86_malloc.c:2826-2827 | the first n bytes of the source, whatever they share words with |
| Realloc.InternalRealloc | trunk/src/x86_malloc.c:2767-2834 | the heap stays in order, the result holds the first bytes of the old block, as many as both have room for, and it is the old block itself exactly if that can shrink or grow into top; otherwise it succeeds if and only if malloc can serve the same request; on failure nothing changes |
| Realloc.Dlrealloc | trunk/src/x86_malloc.c:3303-3324 | the same success condition, with a null pointer meaning malloc |
| Memalign.AlignmentLeast | trunk/src/x86_malloc.c:2841-2847 | the alignment used is the least power of two that is no less than 16 and the one asked for |
| Memalign.OneBitTest | trunk/src/x86_malloc.c:2843 | (a & (a - 1)) != 0 fails exactly for powers of two |
| Memalign.LoopForever | trunk/src/x86_malloc.c:2844-2846 | for an alignment above 2^31 the loop's guard holds after any number of rounds |
| Memalign.LeaderFits | trunk/src/x86_malloc.c:2864-2881 | there is an aligned spot whose leader is 0 or a whole chunk, and no more than alignment + 8 long |
| Memalign.LeaderFirst | trunk/src/x86_malloc.c:2864-2881 | the spot computed is the first in the chunk that is aligned and has no leader or a whole chunk as leader |
| Memalign.CutLeader | trunk/src/x86_malloc.c:2864-2893 | the block is at the first such spot, still has room for the request, and the leader is a chunk of its own |
| Memalign.InternalMemalign | trunk/src/x86_malloc.c:2838-2921 | an aligned block with room for the bytes and at most 16 bytes to spare; what was cut off is free again; success exactly if malloc can serve a chunk larger by the alignment and 16 bytes, and the block is at the first suitable spot of the chunk that malloc would use |
| Memalign.Dlmemalign | trunk/src/x86_malloc.c:3326-3328 | the same success condition, with small alignments meaning malloc |
| Client.BlocksApart | trunk/src/x86_malloc.c:564-603 | blocks in use are 8-aligned, inside the segment, and do not overlap |
| Client.Step | trunk/src/x86_malloc.c:3056-3328 | one call, or one byte read or written, refines its meaning on a store of separate blocks; a block that is not to grow is not moved |
| Client.Run | trunk/src/x86_malloc.c:3056-3328 | any run of malloc, free, realloc, memalign and byte accesses behaves like the store of separate blocks: every read gives the byte written last |
| Client.Boot | trunk/src/x86_malloc.c:3056-3328 | the same from the zeroed state, with no assumption about the heap |
| Division.Divl | trunk/src/x86_math64.c:78-84 | the divl instruction, whose quotient must fit a word |
| Division.CountIsXor | trunk/src/x86_math64.c:86-92 | bsrl and the exclusive or with 31 count the leading zeros |
| Division.OrIsPlus | trunk/src/x86_math64.c:160-164 | the or of x << bm and y >> b is their sum, for all words and counts |
| Division.CountMasked | trunk/src/x86_math64.c:270-272 | the count 64 - bm acts as 32 - bm on 32-bit words |
| Division.OneCorrection | trunk/src/x86_math64.c:275-298 | with the divisor's top bit set, the estimated digit is the right one or one too large |
| Division.EstimateDigit | trunk/src/x86_math64.c:284-302 | the digit and the remainder after the correction step are exact |
| Division.DivideNormalised | trunk/src/x86_math64.c:265-306 | Knuth's step with one correction gives quotient and remainder of the two-word division |
| Division.Udivmoddi4 | trunk/src/x86_math64.c:98-312 | n == q * d + r with 0 <= r < d for every 64-bit n and d > 0; no divl overflows |
| Division.Udivdi3 | trunk/src/x86_math64.c:315-319 | the quotient |
| Division.Umoddi3 | trunk/src/x86_math64.c:321-328 | the remainder |
| PageTree.MarkFacts | trunk/src/x86_mem.c:143-146 | marking an entry clears PAGE_RW, sets PAGE_COW, and leaves the page and every other bit as they are |
| PageTree.Pager.GetPage | trunk/src/x86_mem.c:28-46 | takes the first page of the free list, or 0 if that is empty; the list stays free of cycles and duplicates and is exactly the unreserved pages with count 0 |
| PageTree.Pager.FreePage | trunk/src/x86_mem.c:50-69 | one reference less; the page returns to the free list exactly when it was the last |
| PageTree.Pager.KmallocPage | trunk/src/x86_mem.c:73-83 | a page as get_page gives it, cleared |
| PageTree.CopyTable | trunk/src/x86_mem.c:135-156 | every entry of one table is shared: same page and flags, copy-on-write marks where asked, one more reference for each |
| PageTree.CopyPageTree | trunk/src/x86_mem.c:124-161 | directory and tables are fresh pages, every entry is shared, every mapped page's count rises by the number of its entries, and nothing else changes |
| PageTree.CopyResolves | trunk/src/x86_mem.c:124-161 | every virtual address resolves to the same entry in copy and source; in copy-on-write mode none of them is writable |
| PageTree.FreePageTree | trunk/src/x86_mem.c:165-193 | every reference of the tree is given back, and its own pages are free |
| PageTree.CopyAndFree | trunk/src/x86_mem.c:124-193 | copying a tree and freeing the copy restores every reference count and the set of free pages |
| PageTree.CopySeparate | trunk/src/x86_mem.c:124-161 | the copy and its source have no page of their own in common |
| PageTree.AddressParts | trunk/src/x86_mem.c:93-111 | directory index, table index and the place in the page make up the address: 10, 10 and 12 bits |
| PageTree.SamePlace | trunk/src/x86_mem.c:93-111 | two addresses are looked up in the same place exactly if they are in the same page |
| PageTree.GetTableEntry | trunk/src/x86_mem.c:104-111 | the entry of a virtual address, 0 if there is no table |
| PageTree.SetTableEntry | trunk/src/x86_mem.c:114-120 | afterwards the addresses of that page, and if no table is entered twice no others, have the new entry; nothing in a separate tree changes; no effect without a table |
| PageTree.ShowPage | trunk/src/x86_mem.c:87-100 | the same, in a new cleared table if there was none; no table is entered twice if none was |
| PageTree.Update | trunk/src/x86_mem.c:87-120 | any run of such changes on one tree leaves every entry of a separate tree as it was |
| PageTree.CopyThenUpdate | trunk/src/x86_mem.c:87-161 | after a copy and any run of changes to one of the two trees, the other still has the entries of the moment of copying, none writable in copy-on-write mode |
| Random.GoodRandFits | trunk/src/libc/random.c:216-244 | every intermediate value fits a 32-bit long, for every seed |
| Random.GoodRandExact | trunk/src/libc/random.c:224-244 | equals 16807 * x mod 2^31 - 1 for 1 <= x <= 2^31 - 2, and stays in that range |
| Random.ChainPositive | trunk/src/libc/random.c:265-270 | so a seed in that range puts no zero into the table |
| Random.WindowIsRecurrence | trunk/src/libc/random.c:404-448 | the numbers delivered satisfy x(n) = x(n - deg) + x(n - sep) modulo 2^32 |
| Random.RecurrenceSteps | trunk/src/libc/random.c:112-145 | degrees and separations: x(n) = x(n - 7) + x(n - 3), x(n - 15) + x(n - 1), x(n - 31) + x(n - 3) or x(n - 63) + x(n - 1) |
| Random.LargestType | trunk/src/libc/random.c:301-350 | the type chosen for an array is the largest whose numbers and word 0 fit |
| Random.DeliveredNumber | trunk/src/libc/random.c:429-448 | the n-th number delivered is the n-th that the recurrence adds, without its lowest bit |
| Random.StepWindow | trunk/src/libc/random.c:429-444 | overwriting the oldest number and moving both pointers is one step of that recurrence, with the front pointer at (rear + sep) mod deg before and after |
| Random.Generator.Random | trunk/src/libc/random.c:421-448 | one step of the generator, and the number delivered; the two pointers never wrap in the same call |
| Random.Generator.Srandom | trunk/src/libc/random.c:259-276 | fills the table by good_rand and throws away 10 * deg numbers, after which rear is at 0 and front at sep |
| Random.SeededNumber | trunk/src/libc/random.c:259-448 | after srandom the n-th number is x(11 * deg + n - 1) of the recurrence that starts with good_rand's numbers, without its lowest bit |
| Random.SeededLinear | trunk/src/libc/random.c:259-428 | for the linear type the n-th number is 16807 times the one before, modulo 2^31 - 1 |
| Random.WordZero | trunk/src/libc/random.c:374-376 | type and rear position can be read back from 5 * rear + type |
| Random.Generator.InitState | trunk/src/libc/random.c:301-350 | puts the current generator away and seeds a new one of the largest type that fits; an array that is too small is refused |
| Random.Generator.SetState | trunk/src/libc/random.c:369-402 | puts the current generator away and goes on with the one that the array describes |
| Random.StoredResumes | trunk/src/libc/random.c:301-402 | a generator that was put away is the one that is resumed |
| Random.SetStateInUse | trunk/src/libc/random.c:352-402 | setstate on the array in use keeps the pointers if and only if word 0 is up to date, and keeps the numbers if and only if the table can be turned from one place to the other; a linear generator always goes on |
| Random.SeedDrawSetState | trunk/src/libc/random.c:301-448 | after seeding and n numbers, setstate on the same array is back at the start: nothing is lost if n is a multiple of the degree, and otherwise only if the table looks the same turned |
| Random.SameArrayLosesPlace | trunk/src/libc/random.c:352-402 | seeded with 1, one number drawn, seven words: the generator goes on from other numbers than it would have |
| Random.Step | trunk/src/libc/random.c:301-448 | one draw, resumption or seeding refines its meaning on a pool of separate generators |
| Random.Run | trunk/src/libc/random.c:301-448 | whatever arrays are seeded, put away and resumed in between, every generator delivers its own sequence uninterrupted |
| Doprnt.PutDigits | trunk/src/libc/doprnt.c:543-563 | the digits of u, built backwards; 64 characters are enough |
| Doprnt.PrintNum | trunk/src/libc/doprnt.c:543-606 | puts out exactly blanks, sign, prefix, zeros, digits, blanks as the flags, width and precision ask |
| Doprnt.PrintSigned | trunk/src/libc/doprnt.c:519-533 | sign and magnitude, also of the least number |
| Doprnt.PrintedLength | trunk/src/libc/doprnt.c:565-606 | exactly max(width, sign + prefix + max(precision, digits)) characters |
| Doprnt.PrintedPlaces | trunk/src/libc/doprnt.c:565-606 | where everything stands: sign, prefix, zeros up to the precision and digits; in its field at the right behind blanks, at the left before blanks, or with zeros behind sign and prefix |
| Doprnt.PrefixMeans | trunk/src/libc/doprnt.c:552-557 | 0 before octal digits and 0x before hexadecimal ones, with the # flag and not before a zero |
| Doprnt.DigitsRead | trunk/src/libc/doprnt.c:559-563 | the digits stand for the number |
| Doprnt.DigitsCanonical | trunk/src/libc/doprnt.c:559-563 | they are lower-case, with no leading zero |
| Doprnt.ParseDirective | trunk/src/libc/doprnt.c:205-273 | flags in any order, zero flag, width and precision in digits or as a star, and ll |
| Doprnt.DirectiveRead | trunk/src/libc/doprnt.c:205-273 | every directive written as documented, with any flags, width, precision, ll and conversion, is read for what it says, in front of any text |
| Doprnt.ConversionBases | trunk/src/libc/doprnt.c:392-517 | the base and the signedness of every conversion character |
| Doprnt.StarTurns | trunk/src/libc/doprnt.c:244-250 | a negative star width turns the minus flag around instead of setting it |
| Doprnt.PrintDirective | trunk/src/libc/doprnt.c:205-606 | one directive for an integer: what is put out, where the format goes on, which arguments are used |
| Doprnt.RoundTrip | trunk/src/libc/doprnt.c:519-606 | strtoll in the same base gives the number back for every 64-bit n, base 2 to 16, width, precision and set of flags, if and only if it is not positive with the + flag |
| Doprnt.SignedReadBack | trunk/src/libc/doprnt.c:399-606 | the same for a whole directive |
| Doprnt.UnsignedReadBack | trunk/src/libc/doprnt.c:393-606 | for unsigned directives and pointers, modulo 2^64, if and only if it is not %#p of a non-zero pointer |
| Strtoll.Strtoll | trunk/src/libc/strtoll.c:21-62 | blanks, minus sign, base prefix, then the maximal run of digits, accumulated modulo 2^64; the end position; a plus sign is not skipped |
| Strtoll.ParseWritten | trunk/src/libc/strtoll.c:21-62 | reads blanks, sign, prefix and digits as the number they stand for, and stops behind the last digit |
| Strtoll.ParseLiteral | trunk/src/libc/strtoll.c:32-43 | with base 0 a number is read in the base its beginning tells: 0x, 0, or neither |
| Strtoll.DigitMeans | trunk/src/libc/strtoll.c:47-55 | which characters are which digits, by their codes |
| Strtoll.ParsePlus | trunk/src/libc/strtoll.c:28-31 | before a plus sign nothing is read |
| PointerCache.Nest.TransWait | trunk/src/lib.c:236-247 | succeeds if and only if both steps do |
| PointerCache.Nest.GetTransWait | trunk/src/lib.c:249-267 | on success one reservation is held; on failure none, because it is given back |
| PointerCache.Nest.CreateGet | trunk/src/lib.c:294-305 | a reservation is held if and only if it succeeds |
| PointerCache.Nest.GadrCreateGet | trunk/src/lib.c:320-331 | the same, at the address and length that the nest chose |
| PointerCache.Cache.Put | trunk/src/lib.c:590-603 | gives the slot's reservation back, with background priority if it is dirty, and empties the slot |
| PointerCache.Cache.Get | trunk/src/lib.c:605-626 | fills the slot if and only if the nest succeeds in full length; the slot's old reservation is given back; what is reserved without a slot is stated exactly |
| PointerCache.Cache.AllPut | trunk/src/lib.c:628-637 | every present slot is given back and empty |
| PointerCache.Cache.Alloc | trunk/src/lib.c:639-666 | fills the hashed slot with the base address, dirty; what is reserved without a matching slot is stated exactly |
| PointerCache.SlotAddress | trunk/src/lib.c:661 | the slot stands for the address reserved if and only if that is a multiple of 4 and of `whole` |
| PointerCache.BaseLenLeast | trunk/src/common.h:349 | the length asked for is the least multiple of `whole` that is no less than len, as a 32-bit word; a length of 0 is taken for 2^32 |
| PointerCache.BaseAddrGreatest | trunk/src/common.h:346 | the address stored is the greatest multiple of `whole` that is no greater |
| PointerCache.Run | trunk/src/lib.c:590-666 | over any run and any answers of the nest, followed by _PC_ALL_PUT: what is still reserved is exactly what the short and unaligned successes lost, so nothing if there were none |
| StrategyRecords.SkipPattern | trunk/src/binstrat.c:76-101 | skip_str: on a match the cursor is behind it |
| StrategyRecords.SkipGivenWord | trunk/src/binstrat.c:108-118 | skip_word with a keyword, which must end where the identifier ends |
| StrategyRecords.ConvertOp | trunk/src/binstrat.c:56-69 | convert_op: reads what the parser on texts reads, whose six operators StrategyRoundTrip.OperatorRead states |
| StrategyRecords.Binary.ConvertWord | trunk/src/binstrat.c:131-148 | convert_word: the maximal run of identifier characters, stored behind the cursor of the buffer |
| StrategyRecords.Binary.ConvertString | trunk/src/binstrat.c:154-164 | convert_string |
| StrategyRecords.Binary.ConvertComposed | trunk/src/binstrat.c:171-187 | convert_composed_identifier: only the part behind the last dot is kept |
| StrategyRecords.Binary.ConvertAddr | trunk/src/binstrat.c:192-206 | convert_logaddr on 64-bit addresses |
| StrategyRecords.Binary.ConvertAttr | trunk/src/binstrat.c:213-234 | convert_attr: one record, linked to the end of the buffer in use |
| StrategyRecords.Binary.ConvertAttrs | trunk/src/binstrat.c:292-306 | the attribute loop: a list of exactly the lines that could be read, properly ended, and nothing below the cursor changed |
| StrategyRecords.Binary.ConvertTarget | trunk/src/binstrat.c:240-255 | convert_conn_target |
| StrategyRecords.Binary.ConvertTargets | trunk/src/binstrat.c:315-333 | the list of targets; more than one only for an output |
| StrategyRecords.Binary.ConvertConn | trunk/src/binstrat.c:262-341 | convert_conn: the record and all its lists stand for what the text says, for every text |
| StrategyRecords.Binary.ConvertConns | trunk/src/binstrat.c:389-404 | the connector loop |
| StrategyRecords.Binary.ConvertBrick | trunk/src/binstrat.c:345-412 | convert_brick: succeeds, and stands for what the text says, exactly as the parser on texts does; on failure nothing below the cursor has changed |
| StrategyRecords.Binary.BrickToString | trunk/src/binstrat.c:415-466 | brick_to_string on the linked records gives the text of the brick they stand for |
| StrategyRecords.Binary.PrintAndConvert | trunk/src/binstrat.c:345-466 | printing a brick and converting the text succeeds if and only if it has no attributes of its own and no input has two targets; the new records stand for what is read back, the old ones are untouched |
| StrategyRoundTrip.OperatorRead | trunk/src/binstrat.c:56-69 | the six operators and their actions, in front of any text; only = does without its second character |
| StrategyRoundTrip.NoOperator | trunk/src/binstrat.c:56-69 | and nothing else is an operator |
| StrategyRoundTrip.WrittenRead | trunk/src/binstrat.c:262-412 | a brick written out with any of the six actions for itself, for each connector and for its connections, active or not, with attributes, is read back with exactly these, unless an input has more than one target |
| StrategyRoundTrip.BrickFlagsTell | trunk/src/binstrat.h:12-16 | the flags of a brick that is read tell its action and whether it is active, and nothing else is set |
| StrategyRoundTrip.FlagsTell | trunk/src/binstrat.h:18-34 | what the macros make of the flags of a connector that is read: action and type as written; the connection's action shares a bit with the active bit |
| StrategyRoundTrip.FlagsFaithful | trunk/src/binstrat.h:24-34 | so active bit and connection action are both right if and only if the connector is active and the action odd, or neither |
| StrategyRoundTrip.ConnParam | trunk/src/binstrat.c:287-290 | a c_param line at the front of a connector changes nothing |
| StrategyRoundTrip.BrickParam | trunk/src/binstrat.c:370-373 | nor does a b_param line at the front of a brick |
| StrategyRoundTrip.CharacterClasses | trunk/src/strat.c:85-120 | identifier characters, blanks and white space by their codes |
| StrategyRoundTrip.RoundTrip | trunk/src/binstrat.c:345-466 | the parser on a printed brick: what is read back, or failure, for every brick with identifier names and any number of attributes, connectors and targets |
| StrategyRoundTrip.SameBrick | trunk/src/binstrat.c:345-466 | the same brick comes back if and only if it is active, has no attributes and no action of its own, single-target inputs, connectors without actions, and no attribute value that begins with = |
| StrategyRoundTrip.ConnRead | trunk/src/binstrat.c:262-446 | one connector written with any actions is read back, in front of any text |
| StrategyRoundTrip.AddrRead | trunk/src/binstrat.c:192-206 | a printed 64-bit address is read back |
| StrategyAddr.AddrExactly | trunk/src/binstrat.c:192-206 | a text of hexadecimal digits is read modulo 2^64, and refused if and only if a digit of 8 or more has at least 16 digits behind it |
| StrategyAddr.AddrRight | trunk/src/binstrat.c:192-206 | so it is read right if and only if it is below 2^64 |
| StrategyAddr.NotNoticed | trunk/src/binstrat.c:199-200 | the test for overflow lets 2^64 pass as 0 |

## Left out

- Memory is modelled by words at multiples of 4 (bytes of blocks are parts of words); memory from `sbrk` is taken to start at a multiple of 4.
- mmap, mspaces, footers, locks, the misuse checks and their error actions: compiled out, or made true by the invariant for valid calls.
- Statistics, `ialloc`, `dlcalloc`, `dlvalloc`, `dlpvalloc`, `mallopt`: thin layers over what is here.
- `prepend_alloc` and `add_segment`: the model shows that with this `sbrk` they are not reached, and does not model their bodies.
- Memalign.InternalMemalign: requires an alignment of at most 2^31, because for a larger one the call does not return (`Memalign.LoopForever`).
- Client.Run: excludes, as long as no block is in use, the request sizes that `Overrun.OverrunsExactly` names, because the heap is not in order after one that overruns.
- Division: a divisor of 0, where the code divides by zero on purpose.
- PageTree: `free_page_count` (never updated after initialisation, so taken to be non-zero), interrupt flags, the TLB, `init_paging` and `init_memory`. Kernel entries are marked for copy-on-write like all others, as the code does.
- Random.Generator.SetState: requires a word 0 that describes a generator of a type that fits the array; for a corrupt one the code prints a message and goes on with a mixed state.
- Random.Run: skips `setstate` on the array in use, whose effect `Random.SetStateInUse` states.
- Doprnt: `%b`, `%s`, `%c`, floating point, the copying of the text between directives, and widths that do not fit an int. Overflow of the accumulator in `strtoll`, and of the negation of the least number, is taken to wrap around, as the processor does.
- PointerCache: `_PC_FREE`, and nests whose put fails.
- StrategyRecords: the sizes of the buffers and the counts left in them (the buffers are large enough), the alignment of records, and characters of 128 and above.
- StrategyText: `%L` of the printer is taken to write hexadecimal digits without leading zeros, in either case of letters.
- ELF loading, boot code, descriptor tables, devices, the consoles, system call tables and the Java side.
