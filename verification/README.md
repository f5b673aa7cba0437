# Verified models of the page allocator, the LZMA decoder and the UART ring

This project models three pieces of kernel code and proves what they are for.

* **The zoned buddy allocator** (`page_alloc.c`). `Buddy` is the theory of aligned power-of-two blocks, `FreeArea`
  and `PageAlloc` the allocator's state as values with the effect of each operation, and `Zone` the zone itself:
  free lists, page flags, `NR_FREE_PAGES` and per-CPU lists changed in place, each method tied to its specification.
  The invariant `Zone.Valid` says that free blocks are aligned and disjoint, that no two buddies below the top order
  are both free, that lists, `PG_buddy`, orders and `nr_free` agree, and that each page is in exactly one of a free
  block, a per-CPU list, or the hands of a caller. `Runs` covers whole runs, `Placement` says on which list, and
  where on it, every block is before and after each operation, and which block a request is given; `Delivery` has
  the address order of single pages, `Watermark` the watermark test; `NodeMap`, `Zonelist` and `PageblockFlags` are
  the interval table, the zonelist cache and the flag bitmap of the same file.
* **The LZMA decoder** (`decompress.c`). `RangeCoder` has the decoder's registers and an exact-integer encoder that
  it inverts; `LzmaFormat` the packed probability table; `LzmaCodec`, `LzmaStream`, `LzmaRun` and `LzmaFile` build
  from bit trees up to whole files, each with its round trip; `LzmaCode` writes the code of each packet out, bit by
  bit and model by model, and `LzmaMeaning` what a stream of packets means, both without the machine; `Unlzma` is
  the imperative decoder in linear mode, equal to that specification on every input; `Window` is the circular
  writer.
* **The UART transmit ring** (`serial_core.c`, `serial_daemon.c`) with its log mirror, in `Uart`.

Integers are unbounded except where the width matters: the range coder works modulo 2^32, positions in linear
mode are converted to `int32_t`, the circular writer steps back in `uint32_t`, and the watermark compares as unsigned.

Constants that the modelled files do not define are the kernel's usual ones: `MAX_ORDER` is 11, `PAGE_SHIFT` 12,
`UART_XMIT_SIZE` and `PAGE_SIZE` 4096, `NR_PAGEBLOCK_BITS` 3, a `long` in the flag bitmap 64 bits, migratetypes
UNMOVABLE, RECLAIMABLE, MOVABLE, RESERVE, ISOLATE in this order. `mmzone.h` and `circ_buf.h` are not part of this model;
`CIRC_SPACE_TO_END` follows its standard definition. The code of `error()` halts (`misc.c:158-167` of the same
directory as `decompress.c`), so a method that meets it returns and its caller does no more.

## What the code turned out to do

* `rc_direct_bit` can leave `code` equal to `range`, and from there above it: halving an odd range drops its last
  value. `RangeCoder.StaysBelow` gives the exact condition for one bit and `RangeCoder.BeyondRange` a stream that does
  it. An encoder's output never gets there (`RangeCoder.StepInverts`); and whatever the input, `code` stays a 32-bit
  value, so the decoder goes on within its bounds (`RangeCoder.Step`).
* A file whose first packet is a repeat makes the decoder read before its output, and no other file does
  (`LzmaFile.DecodedOutput`); there are such files (`LzmaFile.RepeatFirst`).
* In linear mode a match that runs past `dst_size` is reported as corrupt data. With the circular writer and a dictionary
  no larger than the output the same test looks at the position in the window, so it never stops a match and the output
  may pass `dst_size` (`Window.Writer.CopyBytes`).
* The circular writer reads wrong bytes for dictionaries above 2^31 (`Window.RightDictionaries`).
* `__absent_pages_in_range` answers 0 for a node with no region at all, not the length of the range.
* The compaction in `remove_active_range` never drops entry 0 (`NodeMap.Table.Compact`), and with a full table a split
  loses the part beyond the range unless another region starts where the split one ended
  (`NodeMap.Table.RemoveActiveRange`, with `NodeMap.FullTable` as an example).
* The rows of `fallbacks` have a fourth column that no initialiser fills; it is 0, which is UNMOVABLE
  (`PageAlloc.Fallbacks`).

## Model

| member | source | states |
|---|---|---|
| `Buddy.Canonical` | linux/kernel/module/kcached/kernel/mm/page_alloc.c:382-487 | the free blocks are determined by the free pages alone: two sets of aligned, disjoint blocks without free buddy pairs that cover the same pages are the same set with the same orders |
| `Buddy.MaximalBlocks` | linux/kernel/module/kcached/kernel/mm/page_alloc.c:409-487 | an aligned run of free pages is a block of its own if and only if it is of the largest order or its parent run has a page in use |
| `Buddy.FreeAlignedInsideBlock` | linux/kernel/module/kcached/kernel/mm/page_alloc.c:382-487 | an aligned run of free pages always lies inside a single free block |
| `PageAlloc.IndexArithmetic` | linux/kernel/module/kcached/kernel/mm/page_alloc.c:382-394 | working with xor and and-not on the low MAX_ORDER bits of the pfn finds the same buddy and the same combined block as arithmetic on the pfn |
| `FreeArea.PutKeeps` | linux/kernel/module/kcached/kernel/mm/page_alloc.c:353-357 | putting an aligned run of used pages on a free list keeps the zone invariant and makes exactly its pages free, provided its buddy is not a free block of that order |
| `FreeArea.TakeKeeps` | linux/kernel/module/kcached/kernel/mm/page_alloc.c:359-363 | taking a free head off its list keeps the invariant and makes exactly its pages used |
| `FreeArea.DropKeeps` | linux/kernel/module/kcached/kernel/mm/page_alloc.c:861-887 | taking a head whose nr_free was decremented earlier restores the invariant, whatever blocks changed lists in between |
| `PageAlloc.MergeStep` | linux/kernel/module/kcached/kernel/mm/page_alloc.c:466-484 | absorbing a free buddy leaves an aligned block of twice the size, none of it free, and a sound zone |
| `PageAlloc.FreeOneKeeps` | linux/kernel/module/kcached/kernel/mm/page_alloc.c:449-487 | freeing an aligned used block, with all its merging, keeps the invariant and adds exactly the freed pages to the free pages |
| `PageAlloc.FreeOneFrame` | linux/kernel/module/kcached/kernel/mm/page_alloc.c:449-487 | freeing writes to no page outside the free pages and the freed block |
| `Placement.FreeOneLists` | linux/kernel/module/kcached/kernel/mm/page_alloc.c:449-487 | the freed block ends up in one free block h of some order u; list t of that order gets h in front, t being the migratetype asked for; every other list only loses what lies in that block, and keeps its order |
| `Placement.FreeThenTake` | linux/kernel/module/kcached/kernel/mm/page_alloc.c:483-486 | freeing a block that does not merge and asking for its order and type gives that block back, and restores every list and count |
| `PageAlloc.ExpandKeeps` | linux/kernel/module/kcached/kernel/mm/page_alloc.c:656-671 | splitting a block down keeps the invariant and frees exactly the pages above the first 2^low |
| `Placement.ExpandLists` | linux/kernel/module/kcached/kernel/mm/page_alloc.c:656-671 | exactly one block per order from low up to high joins the front of list t, and no other list changes |
| `Placement.ExpandHeads` | linux/kernel/module/kcached/kernel/mm/page_alloc.c:656-671 | the free blocks afterwards are those before and the block at p + 2^v for each order v split off |
| `PageAlloc.CarveAllocates` | linux/kernel/module/kcached/kernel/mm/page_alloc.c:717-741 | taking a block off and splitting it hands out an aligned run that was entirely free, and nothing else leaves the free pages |
| `Placement.CarveLists` | linux/kernel/module/kcached/kernel/mm/page_alloc.c:726-737 | afterwards list t has in front, at each order split off, the block left over there; every list has lost what lay in the block taken, and kept its order |
| `PageAlloc.RmSmallestKeeps` | linux/kernel/module/kcached/kernel/mm/page_alloc.c:717-741 | an allocation from one migratetype hands out an aligned, entirely free run; it fails, without a change, if and only if nothing of that order or above is listed |
| `PageAlloc.MoveRangeMass` | linux/kernel/module/kcached/kernel/mm/page_alloc.c:760-802 | relabelling moves heads between lists of the same order and neither loses nor duplicates one |
| `PageAlloc.MoveRangeLists` | linux/kernel/module/kcached/kernel/mm/page_alloc.c:760-802 | after relabelling, a free head is on the requested list exactly if it lies in the range, and where it was otherwise |
| `Placement.MoveRangeOrder` | linux/kernel/module/kcached/kernel/mm/page_alloc.c:760-802 | the blocks that move stand in front of the requested list, the last one first; all other entries of all lists keep their order |
| `PageAlloc.MoveRangeCount` | linux/kernel/module/kcached/kernel/mm/page_alloc.c:760-802 | the count returned is the number of pages in free blocks headed in the range |
| `PageAlloc.MoveBlockLists` | linux/kernel/module/kcached/kernel/mm/page_alloc.c:804-823 | exactly the free blocks headed in the page's aligned pageblock change list; none does when the pageblock ends past the zone, and when it starts before the zone only those from the page on |
| `PageAlloc.MoveBlockCount` | linux/kernel/module/kcached/kernel/mm/page_alloc.c:804-823 | the count returned is the number of free pages in the blocks that moved |
| `PageAlloc.OwnTypes` | linux/kernel/module/kcached/kernel/mm/page_alloc.c:825-834 | taking a block over changes the type of exactly the pageblocks it spans, and of no other |
| `PageAlloc.ClaimTypes` | linux/kernel/module/kcached/kernel/mm/page_alloc.c:869-883 | at most the page's own pageblock changes type, and it does if and only if blocks of this order or requests of this type claim, and at least half of it moved or grouping is off |
| `PageAlloc.BlockIndexRuns` | linux/kernel/module/kcached/kernel/mm/page_alloc.c:4933-4943 | pageblocks are the runs of 2^pageblock_order frames counted from the start of the zone |
| `Placement.TakeOverSplits` | linux/kernel/module/kcached/kernel/mm/page_alloc.c:859-895 | after a block was stolen, what was split off stands in front of the lists of the type that owns it now: the requesting type if the pageblock was claimed, else the donor |
| `Placement.TakeOverLists` | linux/kernel/module/kcached/kernel/mm/page_alloc.c:859-895 | where every free block is after a theft: what was split off is on the claiming type's list if half a pageblock or more was broken, the request is reclaimable or grouping is off, else on the donor's; any other block is on the claiming type's list if it moved with the pageblock, else where it was |
| `PageAlloc.FallbackKeeps` | linux/kernel/module/kcached/kernel/mm/page_alloc.c:837-905 | stealing from another migratetype is an allocation like any other, through relabelling and a change of pageblock type |
| `PageAlloc.FallbackNull` | linux/kernel/module/kcached/kernel/mm/page_alloc.c:748-905 | the search for a block to steal finds none if and only if every fallback list but RESERVE is empty from the order up |
| `Placement.FallbackOrder` | linux/kernel/module/kcached/kernel/mm/page_alloc.c:748-753 | unmovable and reclaimable requests turn to each other first and to movable blocks last, movable ones to reclaimable blocks first |
| `Placement.RmqueueChoice` | linux/kernel/module/kcached/kernel/mm/page_alloc.c:837-934 | which block is given out, in terms of the lists before: the front of the type's own list at the smallest order that has one; with none, the front of the largest block of any list it may steal from, the first such list in table order; only with nothing to steal, the front of RESERVE at the smallest order |
| `Placement.ReserveIsLast` | linux/kernel/module/kcached/kernel/mm/page_alloc.c:910-934 | a RESERVE block goes to another type only when that type's list and all it may steal from are empty from the order up, and it is of the smallest order RESERVE has |
| `PageAlloc.RmqueueKeeps` | linux/kernel/module/kcached/kernel/mm/page_alloc.c:910-934 | every allocation keeps the invariant and takes exactly the pages it returns |
| `PageAlloc.RmqueueNull` | linux/kernel/module/kcached/kernel/mm/page_alloc.c:748-934 | __rmqueue finds nothing if and only if every list the request may be served from is empty from its order up |
| `PageAlloc.RmqueueNullMobile` | linux/kernel/module/kcached/kernel/mm/page_alloc.c:748-934 | for unmovable, reclaimable and movable requests those lists are all but ISOLATE |
| `Placement.RefillPages` | linux/kernel/module/kcached/kernel/mm/page_alloc.c:941-972 | the pages taken for a per-CPU list are distinct, were free and are marked with the type; no other page stops being free; fewer come than asked for only if nothing of that type can be had |
| `Zone.Zone.constructor` | linux/kernel/module/kcached/kernel/mm/page_alloc.c:2996-3004 | a fresh zone is sound, has no free page, and every page is in the hands of callers |
| `Zone.Zone.FreeOneBlock` | linux/kernel/module/kcached/kernel/mm/page_alloc.c:449-487 | the merging loop on page indices reaches the state of the recursive specification FreeOne |
| `Zone.Zone.ExpandBlock` | linux/kernel/module/kcached/kernel/mm/page_alloc.c:656-671 | the halving loop reaches the state of the specification Expand |
| `Zone.Zone.RmqueueSmallest` | linux/kernel/module/kcached/kernel/mm/page_alloc.c:717-741 | the search from the requested order up takes the head of the first non-empty list |
| `Zone.Zone.MoveFreepages` | linux/kernel/module/kcached/kernel/mm/page_alloc.c:760-802 | the in-place loop over page frames does what MoveRange says and returns its count |
| `Zone.Zone.MoveFreepagesBlock` | linux/kernel/module/kcached/kernel/mm/page_alloc.c:804-823 | the in-place move of a pageblock reaches the state and the count of the specification MoveBlock |
| `Zone.Zone.ChangePageblockRange` | linux/kernel/module/kcached/kernel/mm/page_alloc.c:825-834 | the loop over pageblocks reaches the state of the specification Own |
| `Zone.Zone.RmqueueFallback` | linux/kernel/module/kcached/kernel/mm/page_alloc.c:837-905 | the two nested searches pick the largest order, and in it the first fallback list in table order that is not RESERVE |
| `Zone.Zone.Steal` | linux/kernel/module/kcached/kernel/mm/page_alloc.c:859-901 | the claimed pageblock, the change of type and the split leave the state of the specification Fallback |
| `Zone.Zone.ClaimPageblock` | linux/kernel/module/kcached/kernel/mm/page_alloc.c:861-883 | relabelling and taking the pageblock reaches the state of the specification Claim |
| `Zone.Zone.RmqueueAny` | linux/kernel/module/kcached/kernel/mm/page_alloc.c:910-934 | retrying at most once, with RESERVE, reaches the state and the answer of the specification Rmqueue |
| `Zone.Zone.DrainOne` | linux/kernel/module/kcached/kernel/mm/page_alloc.c:558-564 | the last page of the list is freed with merging under the type in its page_private, not under the type of the list |
| `Zone.Zone.DrainTurn` | linux/kernel/module/kcached/kernel/mm/page_alloc.c:558-565 | one turn takes, from the tail, the least of the credit, the count and the length of the list, and frees those pages one by one |
| `Zone.Zone.FreePcppagesBulk` | linux/kernel/module/kcached/kernel/mm/page_alloc.c:529-568 | the loops end and free exactly count pages, tails first, in the round-robin order of RoundRobin, each under the type in its page_private; batch_free (a natural number here) never drops below zero |
| `Zone.AheadAt` | linux/kernel/module/kcached/kernel/mm/page_alloc.c:551-556 | the cyclic search stops at the first non-empty list after the current one and not before |
| `Zone.RoundRobinEven` | linux/kernel/module/kcached/kernel/mm/page_alloc.c:529-568 | as long as no list runs out the lists give up one page each in turn, list 1 first |
| `Zone.RoundRobinAlone` | linux/kernel/module/kcached/kernel/mm/page_alloc.c:529-568 | when the others are empty one list gives up all the pages |
| `Zone.RoundRobinVisits` | linux/kernel/module/kcached/kernel/mm/page_alloc.c:529-568 | the search for the next list with a page takes the same pages as visiting the lists one at a time, each visit earning one page of credit and each page taken costing one |
| `Zone.Zone.DrainZonePages` | linux/kernel/module/kcached/kernel/mm/page_alloc.c:983-996 | at most one batch goes back, round robin; pcp->count stays the number of pages listed |
| `Zone.Zone.DrainPages` | linux/kernel/module/kcached/kernel/mm/page_alloc.c:1006-1023 | the lists of the CPU end up empty and the zone sound |
| `Zone.Zone.DrainAllPages` | linux/kernel/module/kcached/kernel/mm/page_alloc.c:1036-1039 | no page is left on any per-CPU list |
| `Zone.Zone.FreeOnePage` | linux/kernel/module/kcached/kernel/mm/page_alloc.c:570-580 | the pages pass from the caller to the buddy lists and NR_FREE_PAGES stays exact |
| `Zone.Zone.FreePagesOk` | linux/kernel/module/kcached/kernel/mm/page_alloc.c:582-611 | the block goes to the list of its pageblock's migratetype |
| `Zone.PageblockTypeAt` | linux/kernel/module/kcached/kernel/mm/page_alloc.c:4933-4970 | the migratetype of a page is the entry of its run of 2^pageblock_order frames, counted from the start of the zone |
| `Zone.Zone.FreeHotColdPage` | linux/kernel/module/kcached/kernel/mm/page_alloc.c:1080-1138 | an ISOLATE page is freed at once; any other is queued in front (hot) or at the back (cold) of its list, RESERVE pages as movable, and at the high mark one batch goes back |
| `Zone.Zone.SetPrivate` | linux/kernel/module/kcached/kernel/mm/page_alloc.c:1103-1104 | noting a page's type on a page still held changes no free block and no list |
| `Zone.Zone.Queue` | linux/kernel/module/kcached/kernel/mm/page_alloc.c:1117-1129 | the marked page moves from the caller to the front or the back of its per-CPU list; the buddy state does not change |
| `Zone.HotCold` | linux/kernel/module/kcached/kernel/mm/page_alloc.c:1117-1129 | a page freed hot is the next one a hot request gets, a page freed cold the next for a cold one, and getting it restores the list; draining takes the cold end; RESERVE pages go with the movable ones |
| `Zone.Zone.RmqueueBulk` | linux/kernel/module/kcached/kernel/mm/page_alloc.c:941-972 | the pages join the list in allocation order (hot) or reversed at the back (cold), and NR_FREE_PAGES drops by what was taken |
| `Zone.Zone.RefillOne` | linux/kernel/module/kcached/kernel/mm/page_alloc.c:948-966 | one page is allocated and inserted at the given place, marked with its type |
| `Zone.Zone.RefillList` | linux/kernel/module/kcached/kernel/mm/page_alloc.c:1198-1204 | an empty list stays empty only if not one page could be allocated; else its hot or cold end is the first page allocated |
| `Zone.Zone.TakeListed` | linux/kernel/module/kcached/kernel/mm/page_alloc.c:1206-1212 | the hot or the cold end of the list passes to the caller |
| `Zone.Zone.TakeBlock` | linux/kernel/module/kcached/kernel/mm/page_alloc.c:1227-1232 | a block of higher order comes straight from the buddy lists, disjoint from everything held |
| `Zone.Zone.BufferedRmqueue` | linux/kernel/module/kcached/kernel/mm/page_alloc.c:1179-1249 | the pages returned are aligned and disjoint from all held pages; the request fails, changing nothing, if and only if the per-CPU list is empty (order 0) and __rmqueue finds nothing |
| `Zone.Zone.SetHighmark` | linux/kernel/module/kcached/kernel/mm/page_alloc.c:3079-3090 | re-tuning a pageset keeps the zone invariant, with batch between 1 and the cap |
| `Zone.HighmarkBatch` | linux/kernel/module/kcached/kernel/mm/page_alloc.c:3060-3090 | a pageset starts empty with a mark of six batches; setting the mark makes the batch a quarter of it, at least 1 and at most 96 |
| `Watermark.ZoneWatermarkOk` | linux/kernel/module/kcached/kernel/mm/page_alloc.c:1363-1389 | the loop answers yes if and only if enough pages lie above the lowered mark, and at every order below the requested one enough of them in larger blocks |
| `Watermark.WatermarkServes` | linux/kernel/module/kcached/kernel/mm/page_alloc.c:1363-1389 | with an exact counter and nothing isolated, passing the watermark means that __rmqueue returns a block |
| `Watermark.SmallCount` | linux/kernel/module/kcached/kernel/mm/page_alloc.c:1379-1381 | the sum of nr_free << o over the orders below k is the number of pages in free blocks of those orders |
| `Watermark.WatermarkLeaves` | linux/kernel/module/kcached/kernel/mm/page_alloc.c:1363-1389 | the test passes if and only if, with a block of the order gone, at least mark + reserve pages stay free, and of the pages in blocks of each order k up to the requested one at least mark / 2^k |
| `Watermark.LoweredMark` | linux/kernel/module/kcached/kernel/mm/page_alloc.c:1367-1372 | ALLOC_HIGH halves the mark, ALLOC_HARDER takes off a quarter, each rounded up |
| `Runs.SameFreeSameBlocks` | linux/kernel/module/kcached/kernel/mm/page_alloc.c:382-487 | two sound states with the same free pages have the same free blocks, heads and orders |
| `Runs.Serve` | linux/kernel/module/kcached/kernel/mm/page_alloc.c:1080-1249 | every permitted request keeps the zone invariant and moves pages only between callers, per-CPU lists and free blocks |
| `Runs.Run` | linux/kernel/module/kcached/kernel/mm/page_alloc.c:449-1249 | any run keeps the invariant and an exact NR_FREE_PAGES; a run that gives every page back and ends drained restores exactly the blocks it began with |
| `Delivery.FirstIsSmallest` | linux/kernel/module/kcached/kernel/mm/page_alloc.c:642-671 | in the tail of a block the first free block is the smallest of all |
| `Delivery.NextPage` | linux/kernel/module/kcached/kernel/mm/page_alloc.c:642-741 | a single-page request on such a tail returns its first page and leaves the rest |
| `Delivery.OrderedDelivery` | linux/kernel/module/kcached/kernel/mm/page_alloc.c:642-741 | successive single-page requests return base, base + 1, base + 2 and so on |
| `Delivery.TailDecomposition` | linux/kernel/module/kcached/kernel/mm/page_alloc.c:642-671 | the free blocks are exactly the aligned decomposition of the untouched tail |
| `RangeCoder.SplitBounds` | linux/kernel/module/lzam_decompress/kernel/arch/arm/boot/compressed/decompress.c:142-147 | every split leaves both sides a share that one 8-bit shift brings back to 2^24, with no overflow |
| `RangeCoder.ShareOfRange` | linux/kernel/module/lzam_decompress/kernel/arch/arm/boot/compressed/decompress.c:142-147 | the share of a 0 bit is to the range as the probability is to 2048, rounded down to a multiple of the probability |
| `RangeCoder.Adapts` | linux/kernel/module/lzam_decompress/kernel/arch/arm/boot/compressed/decompress.c:155-165 | the two updates mirror each other, and each closes exactly one 32nd of the gap to its end, rounded down |
| `RangeCoder.EncodeSplits` | linux/kernel/module/lzam_decompress/kernel/arch/arm/boot/compressed/decompress.c:142-191 | at least 2^24 of range is cut in two: a 0 takes the lower part and makes the next 0 likelier, a 1 the rest and the opposite; even bits get halves |
| `RangeCoder.EvenStart` | linux/kernel/module/lzam_decompress/kernel/arch/arm/boot/compressed/decompress.c:611-613 | all models start at even odds, and the range at 2^32 - 1 |
| `RangeCoder.Normalize` | linux/kernel/module/lzam_decompress/kernel/arch/arm/boot/compressed/decompress.c:125-136 | one 8-bit shift restores range to 2^24 or more for every input, and it stops only at the end of the input |
| `RangeCoder.Step` | linux/kernel/module/lzam_decompress/kernel/arch/arm/boot/compressed/decompress.c:142-191 | every bit, on every input, keeps the register invariant: probabilities in 31..2017, range at least 2^16, code a 32-bit value |
| `RangeCoder.StaysBelow` | linux/kernel/module/lzam_decompress/kernel/arch/arm/boot/compressed/decompress.c:125-191 | code stays below range if and only if the bit is not an even one read from an odd range with code == range - 1 |
| `RangeCoder.BeyondRange` | linux/kernel/module/lzam_decompress/kernel/arch/arm/boot/compressed/decompress.c:113-191 | a stream whose first even bits take code from below range to range, and then above it |
| `RangeCoder.EncodeNests` | linux/kernel/module/lzam_decompress/kernel/arch/arm/boot/compressed/decompress.c:142-191 | each bit narrows the interval of the encoder inside the previous one |
| `RangeCoder.StepInverts` | linux/kernel/module/lzam_decompress/kernel/arch/arm/boot/compressed/decompress.c:142-191 | from bytes in the narrowed interval the decoder returns the bit that was encoded, and code stays value minus low |
| `RangeCoder.DecoderInverts` | linux/kernel/module/lzam_decompress/kernel/arch/arm/boot/compressed/decompress.c:96-202 | for every sequence of adaptive and even bits, decoding any bytes in its final interval returns exactly those bits |
| `RangeCoder.InitCodeValue` | linux/kernel/module/lzam_decompress/kernel/arch/arm/boot/compressed/decompress.c:113-122 | the five initial shifts leave the value of bytes two to five: the first byte is shifted out |
| `RangeCoder.EveryTraceHasBytes` | linux/kernel/module/lzam_decompress/kernel/arch/arm/boot/compressed/decompress.c:113-202 | every bit sequence has bytes in its interval, which decode to it |
| `LzmaFormat.InRegion` | linux/kernel/module/lzam_decompress/kernel/arch/arm/boot/compressed/decompress.c:221-267 | every probability of every model lies in its own region and inside the allocated table, for all lc, lp and pb |
| `LzmaFormat.LayoutInjective` | linux/kernel/module/lzam_decompress/kernel/arch/arm/boot/compressed/decompress.c:221-267 | two different (model, context, tree node) triples never share an entry |
| `LzmaFormat.SpecRange` | linux/kernel/module/lzam_decompress/kernel/arch/arm/boot/compressed/decompress.c:496-497 | the reverse trees of slots 4 to 13 follow one another without overlap, between the slot trees and the align tree |
| `LzmaFormat.LitContextInjective` | linux/kernel/module/lzam_decompress/kernel/arch/arm/boot/compressed/decompress.c:346-350 | different position bits or high bits of the previous byte give different literal contexts |
| `LzmaFormat.DistanceSplits` | linux/kernel/module/lzam_decompress/kernel/arch/arm/boot/compressed/decompress.c:479-515 | every 32-bit distance has a slot below 64 and extra bits that fit it |
| `LzmaFormat.DistanceJoins` | linux/kernel/module/lzam_decompress/kernel/arch/arm/boot/compressed/decompress.c:479-515 | slot and extra bits determine the distance, so the map is a bijection and only the last distance is the end marker |
| `LzmaCodec.BitTreeRoundTrip` | linux/kernel/module/lzam_decompress/kernel/arch/arm/boot/compressed/decompress.c:194-202 | decoding the bits of a symbol from a bit tree gives the symbol |
| `LzmaCodec.RevRoundTrip` | linux/kernel/module/lzam_decompress/kernel/arch/arm/boot/compressed/decompress.c:507-513 | the same for the low-bit-first trees |
| `LzmaCodec.DirectRoundTrip` | linux/kernel/module/lzam_decompress/kernel/arch/arm/boot/compressed/decompress.c:499-502 | the same for even bits, high bit first |
| `LzmaCodec.LenRoundTrip` | linux/kernel/module/lzam_decompress/kernel/arch/arm/boot/compressed/decompress.c:447-475 | all 272 lengths round-trip through the three-part length coder |
| `LzmaCodec.DistRoundTrip` | linux/kernel/module/lzam_decompress/kernel/arch/arm/boot/compressed/decompress.c:477-515 | all 2^32 distances round-trip through slot, reverse tree, direct and align bits |
| `LzmaCodec.MatchedRoundTrip` | linux/kernel/module/lzam_decompress/kernel/arch/arm/boot/compressed/decompress.c:352-373 | literal bits round-trip while they follow the match byte and after they leave it |
| `LzmaCodec.LitRoundTrip` | linux/kernel/module/lzam_decompress/kernel/arch/arm/boot/compressed/decompress.c:344-373 | all literal bytes round-trip, after a literal and after a copy |
| `LzmaCode.SlotMeaning` | linux/kernel/module/lzam_decompress/kernel/arch/arm/boot/compressed/decompress.c:479-489 | a distance's slot is twice the place of its leading one, plus the bit below that; distances below 4 are their own slots |
| `LzmaCode.LitCoded` | linux/kernel/module/lzam_decompress/kernel/arch/arm/boot/compressed/decompress.c:344-373 | a literal is eight bits, high bit first, under the models of its context; after a copy under those set apart for the match byte's bit while the bits so far agree with it |
| `LzmaCode.LenCoded` | linux/kernel/module/lzam_decompress/kernel/arch/arm/boot/compressed/decompress.c:447-475 | 0 and three bits for lengths up to 9, 10 and three bits up to 17, 11 and eight bits up to 273, the first two kinds under models of their own per position state |
| `LzmaCode.DistCoded` | linux/kernel/module/lzam_decompress/kernel/arch/arm/boot/compressed/decompress.c:477-515 | six bits of slot under the models of the length, then the bits below the two leading ones: low bit first under the slot's own models up to slot 13; beyond that even bits, high bit first, and the last four low bit first under the align models |
| `LzmaCode.KindCoded` | linux/kernel/module/lzam_decompress/kernel/arch/arm/boot/compressed/decompress.c:384-445 | 0 is a literal, 10 a match, 1100 a one-byte repeat, 1101, 1110, 11110 and 11111 repeats of the last four distances, each bit under its own model of the state |
| `LzmaCode.ContextCoded` | linux/kernel/module/lzam_decompress/kernel/arch/arm/boot/compressed/decompress.c:346-350 | the masks and shifts are the remainder and quotient of position and previous byte by powers of two |
| `LzmaStream.PacketRoundTrip` | linux/kernel/module/lzam_decompress/kernel/arch/arm/boot/compressed/decompress.c:617-642 | decoding the bits of a packet gives the packet, in every state and context |
| `LzmaCode.PacketCoded` | linux/kernel/module/lzam_decompress/kernel/arch/arm/boot/compressed/decompress.c:339-526 | the bits that decode to a packet, and the model of each, are those of its code, written out from the packet, the state and the context alone |
| `LzmaRun.CopyRepeats` | linux/kernel/module/lzam_decompress/kernel/arch/arm/boot/compressed/decompress.c:322-337 | every byte of a match equals the byte rep0 back, also where the copy overlaps itself |
| `LzmaRun.ApplyKeeps` | linux/kernel/module/lzam_decompress/kernel/arch/arm/boot/compressed/decompress.c:339-526 | every packet keeps the state in 0..11 and all four distances inside output and dictionary, and only adds to the output; a read before the output happens exactly when the first packet is a repeat |
| `LzmaMeaning.StateStep` | linux/kernel/module/lzam_decompress/kernel/arch/arm/boot/compressed/decompress.c:374-443 | the packet state is a function of the packet kinds: which copy came last, whether a literal or a copy preceded it, and how many literals followed |
| `LzmaMeaning.StateOfLiterals` | linux/kernel/module/lzam_decompress/kernel/arch/arm/boot/compressed/decompress.c:374-443 | the state is below 7 exactly when the last packet is a literal or there is none, and three literals take every state to 0 |
| `LzmaMeaning.RepsMove` | linux/kernel/module/lzam_decompress/kernel/arch/arm/boot/compressed/decompress.c:393-443 | on the list of the last four distances a match puts its own in front and drops the last, and a repeat moves its distance to the front; the others keep their order |
| `LzmaMeaning.CopyPeriodic` | linux/kernel/module/lzam_decompress/kernel/arch/arm/boot/compressed/decompress.c:322-337 | a copy repeats the last rep0 bytes over and over, cut at its length |
| `LzmaMeaning.PlayedMeaning` | linux/kernel/module/lzam_decompress/kernel/arch/arm/boot/compressed/decompress.c:339-526 | after any packets the machine's state, distances and output are what the packets mean, defined without the machine |
| `LzmaMeaning.PacketEffect` | linux/kernel/module/lzam_decompress/kernel/arch/arm/boot/compressed/decompress.c:384-526 | exactly what the next packet does: distance 2^32 ends the stream, one beyond dictionary or output is refused, a repeat before any output reads before it, a copy past dst_size fills the output and fails, and all else adds what it means |
| `LzmaRun.RunOutput` | linux/kernel/module/lzam_decompress/kernel/arch/arm/boot/compressed/decompress.c:617-642 | output only grows, and a run that ends without an end marker or an error has produced exactly dst_size bytes |
| `LzmaRun.StreamRoundTrip` | linux/kernel/module/lzam_decompress/kernel/arch/arm/boot/compressed/decompress.c:617-642 | decoding the bits of packets that drive the output to some bytes produces those bytes |
| `LzmaMeaning.DrivesWhenLegal` | linux/kernel/module/lzam_decompress/kernel/arch/arm/boot/compressed/decompress.c:617-642 | packets drive the machine to some output if and only if they are legal and that is what they mean, both said without the machine |
| `LzmaMeaning.StreamCoded` | linux/kernel/module/lzam_decompress/kernel/arch/arm/boot/compressed/decompress.c:617-642 | the bits of a whole stream are the codes of its packets one after another, each in the state and context its predecessors leave |
| `LzmaMeaning.RunMeaning` | linux/kernel/module/lzam_decompress/kernel/arch/arm/boot/compressed/decompress.c:617-642 | whatever the coded bytes: a decoder that is done was given legal packets and has written what they mean, and one that stops has written the beginning of that |
| `LzmaFile.PropsRoundTrip` | linux/kernel/module/lzam_decompress/kernel/arch/arm/boot/compressed/decompress.c:574-590 | every lc, lp and pb survives the packing into the first header byte |
| `LzmaFile.HeaderRoundTrip` | linux/kernel/module/lzam_decompress/kernel/arch/arm/boot/compressed/decompress.c:566-596 | the 13-byte header is read back as it was written |
| `LzmaFile.FileRoundTrip` | linux/kernel/module/lzam_decompress/kernel/arch/arm/boot/compressed/decompress.c:528-659 | decoding inverts encoding from the header to the last byte |
| `LzmaMeaning.FileMeaning` | linux/kernel/module/lzam_decompress/kernel/arch/arm/boot/compressed/decompress.c:528-659 | a file in the interval of the code of any legal packets decodes to what the packets mean |
| `LzmaMeaning.AcceptedFile` | linux/kernel/module/lzam_decompress/kernel/arch/arm/boot/compressed/decompress.c:528-659 | a file the decoder accepts holds legal packets, under the sizes in its header, and its output is what they mean |
| `LzmaMeaning.HeaderFields` | linux/kernel/module/lzam_decompress/kernel/arch/arm/boot/compressed/decompress.c:566-596 | the first byte is lc + 9 * (lp + 5 * pb); then a 32-bit dictionary size, 0 counting as 1, and a 64-bit output size, both little-endian |
| `LzmaFile.EveryOutputHasFile` | linux/kernel/module/lzam_decompress/kernel/arch/arm/boot/compressed/decompress.c:528-659 | every byte string has a file that decodes to it, under every choice of parameters |
| `LzmaFile.DecodedOutput` | linux/kernel/module/lzam_decompress/kernel/arch/arm/boot/compressed/decompress.c:617-642 | for every file: one shorter than the header ends in an error; else never more than dst_size bytes, exactly that many unless stopped; and a read before the output if and only if the file starts with a repeat |
| `LzmaFile.RepeatFirst` | linux/kernel/module/lzam_decompress/kernel/arch/arm/boot/compressed/decompress.c:404-445 | under every choice of parameters there is a file that starts with a repeat |
| `Unlzma.Decoder.RcNormalize` | linux/kernel/module/lzam_decompress/kernel/arch/arm/boot/compressed/decompress.c:86-136 | the registers after the shift are those of the specification, or the input has ended |
| `Unlzma.Decoder.RcGetBit` | linux/kernel/module/lzam_decompress/kernel/arch/arm/boot/compressed/decompress.c:168-179 | one adaptive bit, with the probability updated in place |
| `Unlzma.Decoder.RcDirectBit` | linux/kernel/module/lzam_decompress/kernel/arch/arm/boot/compressed/decompress.c:182-191 | one even bit |
| `Unlzma.Decoder.RcBitTreeDecode` | linux/kernel/module/lzam_decompress/kernel/arch/arm/boot/compressed/decompress.c:194-202 | the tree loop returns the symbol of the recursive specification |
| `Unlzma.Decoder.DecodeLength` | linux/kernel/module/lzam_decompress/kernel/arch/arm/boot/compressed/decompress.c:447-475 | length less two, from the low, middle or high tree |
| `Unlzma.Decoder.DecodeLowBits` | linux/kernel/module/lzam_decompress/kernel/arch/arm/boot/compressed/decompress.c:507-513 | the low bits, least significant first |
| `Unlzma.Decoder.DecodeDistance` | linux/kernel/module/lzam_decompress/kernel/arch/arm/boot/compressed/decompress.c:477-515 | slot and extra bits give the distance of the specification |
| `Unlzma.Decoder.DecodeSlot` | linux/kernel/module/lzam_decompress/kernel/arch/arm/boot/compressed/decompress.c:479-515 | the bits below the slot give the distance of the specification |
| `Unlzma.Decoder.DecodeLiteral` | linux/kernel/module/lzam_decompress/kernel/arch/arm/boot/compressed/decompress.c:344-373 | the two bit loops give the byte of the specification |
| `Unlzma.Machine.PeekOldByte` | linux/kernel/module/lzam_decompress/kernel/arch/arm/boot/compressed/decompress.c:290-299 | the byte that many back, reduced by whole dictionaries; or a read before the output |
| `Unlzma.Machine.WriteByte` | linux/kernel/module/lzam_decompress/kernel/arch/arm/boot/compressed/decompress.c:308-311 | the output is longer by exactly that byte |
| `Unlzma.Machine.CopyBytes` | linux/kernel/module/lzam_decompress/kernel/arch/arm/boot/compressed/decompress.c:327-337 | the output becomes the byte-by-byte copy, cut where the output is full; what is left of the length is returned |
| `Unlzma.Machine.FinishCopy` | linux/kernel/module/lzam_decompress/kernel/arch/arm/boot/compressed/decompress.c:523-525 | a match that runs past dst_size is reported as corrupt, after filling the output |
| `Unlzma.Machine.SelectRepeat` | linux/kernel/module/lzam_decompress/kernel/arch/arm/boot/compressed/decompress.c:395-445 | the decision bits and the rotation of the distances give the next four distances and the next state |
| `Unlzma.Machine.DecodeCopy` | linux/kernel/module/lzam_decompress/kernel/arch/arm/boot/compressed/decompress.c:446-525 | length, distance when the state asks for one, end marker, range tests and the copy |
| `Unlzma.Machine.ProcessMatch` | linux/kernel/module/lzam_decompress/kernel/arch/arm/boot/compressed/decompress.c:394-403 | a new distance pushes the three older ones along |
| `Unlzma.Machine.ProcessRepeat` | linux/kernel/module/lzam_decompress/kernel/arch/arm/boot/compressed/decompress.c:404-445 | a repeat, of one byte or longer, decodes and plays as specified |
| `Unlzma.Machine.ProcessBit1` | linux/kernel/module/lzam_decompress/kernel/arch/arm/boot/compressed/decompress.c:384-526 | every copying packet leaves registers, distances and window as decoding and playing it should |
| `Unlzma.Machine.ProcessBit0` | linux/kernel/module/lzam_decompress/kernel/arch/arm/boot/compressed/decompress.c:339-382 | a literal packet does the same |
| `Unlzma.Machine.LiteralEntry` | linux/kernel/module/lzam_decompress/kernel/arch/arm/boot/compressed/decompress.c:346-350 | the entry computed from position and previous byte is that of the literal context, and its 768 entries fit the table |
| `Unlzma.Machine.FinishLiteral` | linux/kernel/module/lzam_decompress/kernel/arch/arm/boot/compressed/decompress.c:374-381 | the byte is appended and the state steps back as after a literal |
| `Unlzma.Machine.DecodePacket` | linux/kernel/module/lzam_decompress/kernel/arch/arm/boot/compressed/decompress.c:617-642 | one turn of the main loop is one packet decoded and played |
| `Unlzma.Machine.Loop` | linux/kernel/module/lzam_decompress/kernel/arch/arm/boot/compressed/decompress.c:617-642 | the main loop terminates and its output is that of the specification Run, for every input |
| `Unlzma.SplitProps` | linux/kernel/module/lzam_decompress/kernel/arch/arm/boot/compressed/decompress.c:577-588 | the two subtraction loops compute lc, lp and pb |
| `Unlzma.Unlzma` | linux/kernel/module/lzam_decompress/kernel/arch/arm/boot/compressed/decompress.c:528-659 | for every input the buffer, the answer and the size are those of the specification Decoded |
| `Unlzma.Decompress` | linux/kernel/module/lzam_decompress/kernel/arch/arm/boot/compressed/decompress.c:661-676 | the last four bytes of the image are not decoded |
| `Window.PeekIndexRight` | linux/kernel/module/lzam_decompress/kernel/arch/arm/boot/compressed/decompress.c:300-303 | the 32-bit index is the right cell if and only if the step back does not wrap, or wraps by at most 2^32 - dict_size |
| `Window.RightDictionaries` | linux/kernel/module/lzam_decompress/kernel/arch/arm/boot/compressed/decompress.c:300-303 | reads are right at every position if and only if the dictionary is at most 2^31 bytes |
| `Window.Writer.PeekOldByte` | linux/kernel/module/lzam_decompress/kernel/arch/arm/boot/compressed/decompress.c:300-303 | the offs-th most recent byte of the whole history |
| `Window.Writer.WriteByte` | linux/kernel/module/lzam_decompress/kernel/arch/arm/boot/compressed/decompress.c:308-319 | the history grows by the byte, and a full window is handed over whole |
| `Window.Writer.CopyBytes` | linux/kernel/module/lzam_decompress/kernel/arch/arm/boot/compressed/decompress.c:322-337 | the history becomes the same copy as in linear mode; it is cut at dst_size only when the dictionary is larger than the output |
| `Window.Writer.FinalFlush` | linux/kernel/module/lzam_decompress/kernel/arch/arm/boot/compressed/decompress.c:646-647 | the chunks and the last partial flush concatenate to the history |
| `Window.Writer.NextContext` | linux/kernel/module/lzam_decompress/kernel/arch/arm/boot/compressed/decompress.c:346-353 | position, previous byte and byte at rep0, read from the window, are what they are in linear mode |
| `Window.Writer.Play` | linux/kernel/module/lzam_decompress/kernel/arch/arm/boot/compressed/decompress.c:339-526 | one packet leaves the history and the distances that it leaves in linear mode |
| `Window.Writer.PlayAll` | linux/kernel/module/lzam_decompress/kernel/arch/arm/boot/compressed/decompress.c:617-647 | packets that drive linear mode to some output make the circular writer flush exactly that output |
| `Uart.RingAppend` | linux/kernel/module/serial_daemon/kernel/drivers/serial/serial_core.c:523-535 | writing at head, around the end, appends to the queue |
| `Uart.RingTake` | linux/kernel/module/serial_daemon/kernel/drivers/serial/serial_core.c:523-535 | advancing tail removes the oldest byte |
| `Uart.Port.PutChar` | linux/kernel/module/serial_daemon/kernel/drivers/serial/serial_core.c:468-485 | a byte is accepted if and only if the port is open and fewer than 4095 wait |
| `Uart.Port.Write` | linux/kernel/module/serial_daemon/kernel/drivers/serial/serial_core.c:499-544 | exactly the first min(count, free) bytes are appended, their number is returned, and the daemon receives the same bytes |
| `Uart.Port.WriteRoom` | linux/kernel/module/serial_daemon/kernel/drivers/serial/serial_core.c:546-556 | the room left in a queue of capacity 4095 |
| `Uart.Port.CharsInBuffer` | linux/kernel/module/serial_daemon/kernel/drivers/serial/serial_core.c:558-568 | the length of the queue |
| `Uart.Port.FlushBuffer` | linux/kernel/module/serial_daemon/kernel/drivers/serial/serial_core.c:570-594 | the queue is emptied and the accounting restarts |
| `Uart.Port.ConsoleWrite` | linux/kernel/module/serial_daemon/kernel/drivers/serial/serial_core.c:1831-1856 | both sinks receive the same text, with carriage returns before newlines |
| `Uart.ExpandedMeaning` | linux/kernel/module/serial_daemon/kernel/drivers/serial/serial_core.c:1838-1847 | every newline has a carriage return directly before it, and dropping those gives the text back |
| `Uart.Daemon.Write` | linux/kernel/module/serial_daemon/kernel/drivers/serial/serial_core.c:538-540 | the buffer keeps the latest bytes of everything handed over while attached, starting over exactly when it would overflow |
| `Uart.Daemon.PutChar` | linux/kernel/module/serial_daemon/kernel/drivers/serial/serial_core.c:1838-1847 | one byte is one more byte of the stream |
| `NodeMap.Table.AddActiveRange` | linux/kernel/module/kcached/kernel/mm/page_alloc.c:3965-4014 | for a range overlapping nothing on its node the covered set becomes the union; a full table with no region next to the range stays as it is |
| `NodeMap.Table.Shrink` | linux/kernel/module/kcached/kernel/mm/page_alloc.c:4037-4061 | the node gives up exactly the range, split included, if and only if the table has room or the split part needs no entry of its own |
| `NodeMap.Table.Compact` | linux/kernel/module/kcached/kernel/mm/page_alloc.c:4066-4078 | coverage stays, entry 0 stays as it is, and no other cleared entry of the node is left: one is left if and only if entry 0 was one |
| `NodeMap.Table.DropEntry` | linux/kernel/module/kcached/kernel/mm/page_alloc.c:4071-4077 | the entries behind move down by one |
| `NodeMap.Table.RemoveActiveRange` | linux/kernel/module/kcached/kernel/mm/page_alloc.c:4027-4079 | exactly the interval is subtracted on its node, and no other node changes; with a full table, if and only if no entry of its own is needed |
| `NodeMap.FullTable` | linux/kernel/module/kcached/kernel/mm/page_alloc.c:4046-4053 | there is a full table in which removing a range needs an entry of its own |
| `NodeMap.Table.NextIndex` | linux/kernel/module/kcached/kernel/mm/page_alloc.c:3326-3348 | the next entry of the node, or -1 |
| `NodeMap.Table.AbsentPagesInRange` | linux/kernel/module/kcached/kernel/mm/page_alloc.c:3581-3625 | the number of page frames in the range that no region of the node covers, or 0 for a node with no region; BUG_ON never fires |
| `Zonelist.FirstPageNone` | linux/kernel/module/kcached/kernel/mm/page_alloc.c:1528-1590 | the plain search finds nothing if and only if no zone would give a page |
| `Zonelist.GivenAboveMark` | linux/kernel/module/kcached/kernel/mm/page_alloc.c:1537-1575 | unless watermarks are ignored a page comes from a zone that met its mark, at once or after a reclaim that worked; one that met it at once gives what it has |
| `Zonelist.Scan` | linux/kernel/module/kcached/kernel/mm/page_alloc.c:1527-1590 | one scan gives the page of the first zone that has one, but for those the cache says not to try, and newly marks only zones that gave none as full |
| `Zonelist.GetPage` | linux/kernel/module/kcached/kernel/mm/page_alloc.c:1515-1598 | at most two scans whatever the cache holds; in a single scan without a cache the page is that of the plain search, and with one no earlier zone has a page but those the cache says not to try; no page only when every zone of the last scan was examined and gave none, so the cache never changes whether a page is found |
| `PageblockFlags.BitsFit` | linux/kernel/module/kcached/kernel/mm/page_alloc.c:3709-3719 | every bit index of every page of the zone lies inside the bitmap |
| `PageblockFlags.UsemapTight` | linux/kernel/module/kcached/kernel/mm/page_alloc.c:3709-3719 | the bitmap is a whole number of longs, with fewer than 64 bits beyond those needed for the pageblocks begun |
| `PageblockFlags.Flags.OwnBits` | linux/kernel/module/kcached/kernel/mm/page_alloc.c:4933-4943 | two frames share a bit index if and only if they are in the same run of 2^order frames from the start of the zone, and different runs have disjoint bits |
| `PageblockFlags.NumberBitsOf` | linux/kernel/module/kcached/kernel/mm/page_alloc.c:4951-4970 | reading back the low n bits of a value gives the value masked to n bits |
| `PageblockFlags.Flags.Get` | linux/kernel/module/kcached/kernel/mm/page_alloc.c:4951-4970 | the number whose bits, low first, are the group's |
| `PageblockFlags.Flags.Set` | linux/kernel/module/kcached/kernel/mm/page_alloc.c:4979-4999 | the group takes the low bits of the value, for every page of the pageblock; the other bits of the pageblock, and all other pageblocks, stay |
| `PageblockFlags.Flags.RoundTrip` | linux/kernel/module/kcached/kernel/mm/page_alloc.c:4951-4999 | any page of the same pageblock reads back the written value, masked to the group |

## Left out

- Compound pages: taken to be well formed, so that `destroy_compound_page` returns 0; the checks of `free_pages_check`, `check_new_page` and `prep_new_page` pass.
- Reclaim, OOM, kswapd, cpusets and `zone_reclaim`: in the zonelist scan they are arbitrary answers.
- Locks, interrupts, tracing, highmem and memory zeroing: each method is one atomic step.
- Per-CPU drift of `NR_FREE_PAGES`: the counter is exact.
- `free_pcppages_bulk` when asked for more pages than are listed: the loop would not end; no caller does it, which `Zone.Valid` shows.
- Linked lists as sequences and pages as page frame numbers: how `list_head` links are rewritten is not modelled.
- Zone.Zone.RmqueueBulk: order 0 only, which is the only order the file asks for.
- Zone.Zone.MoveFreepages: page frames of another zone interleaved with this one are not modelled; frames without a page are skipped.
- Zone.Zone.constructor: the layout of memory, reserved pages and bootmem are the set of pages handed in.
- Runs.Serve: its own contract says only who holds what; the exact effect of each request is in the contract of the zone method it calls.
- SPARSEMEM variants of the flag bitmap, and hotplug.
- `fill` callbacks and chunked input: the whole input is in memory. Failing allocations in `unlzma` are not modelled.
- Unlzma.Unlzma: the output buffer has at most 2^31 bytes and holds what the input decodes to, as the caller must ensure; the code itself does not test it.
- Unlzma.Decompress: under the same condition on the buffer as Unlzma.Unlzma.
- Window.Writer.PlayAll: under the same conditions as Window.Writer.CopyBytes.
- Window.Writer.CopyBytes: for dictionaries up to 2^31 and a callback that accepts every chunk; a refused chunk stops the copy, as `Window.Writer.WriteByte` shows.
- NodeMap.Table.AddActiveRange: ranges that overlap regions of their node are excluded; the merge code does not form a union there. `mminit_validate_memmodel_limits` changes nothing.
- Uart.Daemon.Write: at most one page at a time, which is all its callers hand over; the code does not test it. The kernel thread that empties the buffer is left out.
- The tty layer: `uart_start`, the `-EL3HLT` answer for a closed tty, the wake-ups, the driver's own flush.
- Zonelist construction, `find_zone_movable_pfns_for_nodes`, `mark_free_pages`: configuration and suspend support with little to prove.
