# Verified models of the core algorithms

The repository is an operating-systems course portfolio with a copy of Valgrind
3.22.0.  This project models the parts of it that carry an algorithm or a protocol,
and proves what those parts are for.  `dafny verify dfyconfig.toml` checks all of it.

| files | what they model |
|---|---|
| `Bits.dfy`, `Lists.dfy` | powers of two, shifts, bitwise operators, sequences used as lists |
| `ListPool.dfy` | the intrusive circular lists of `list.h`, all heads and page nodes in one pool |
| `BuddySpec.dfy`, `BuddyInv.dfy`, `BuddyTheorems.dfy`, `Buddy.dfy` | the buddy allocator: functions on values, the invariant, the theorems, the class that works in place |
| `Simulator.dfy` | the command interpreter around the allocator |
| `CacheSpec.dfy`, `CacheSim.dfy`, `CacheHistory.dfy` | Cachegrind's cache simulator on values and in place; misses told by history |
| `Ledger.dfy`, `Statements.dfy` | what every counter holds, from references and branches, and from the statements of a superblock |
| `QueueSpec.dfy`, `CacheQueue.dfy`, `Profile.dfy` | Cachegrind's helpers, event queue and instrumentation, and the helpers in place |
| `NoPanic.dfy`, `MergeCost.dfy` | when the cache simulation panics; what merging a read and a write costs |
| `Philosophers.dfy`, `Fairness.dfy` | the dining philosophers as an interleaving of lock and unlock steps; infinite runs |
| `QuickSortSpec.dfy`, `QuickSortTheorems.dfy`, `QuickSort.dfy` | Callgrind's quicksort |
| `Adler32.dfy` | the Adler-32 checksum of the debug-info server |
| `JccTable.dfy` | Callgrind's table of call arcs |
| `PageMap.dfy` | the demand-paged address translator |

## How the model reads the code

- **Buddy allocator.** MIN_ORDER and MAX_ORDER are parameters.  Lemmas speak of
  levels (order minus MIN_ORDER) and page indices; the class speaks of orders and of
  addresses as offsets into `g_memory`, and computes buddies by exclusive-or on them.
  The set of live blocks, which the code does not record, is ghost state.
  `buddy_alloc` is modelled for sizes up to 2^30, beyond which the shift of its order
  search is not defined; `buddy_free` for the address of a live block.
- **Stale flags.** The comment on `page_t` says `free` marks heads of free blocks.
  That is false (`StaleFlagReachable`).  The invariant says instead that a flagged page
  that heads no block is the right half of an aligned region inside one larger block.
  `FlagExact` says exactly when the flag is right: a page is on a list if and only if it
  is flagged and no descriptor of a flagged or live page encloses it in a larger block.
  `MergeTestExact` concludes that the merge test is exact all the same.
- **Caches.** Tags are block numbers and the array starts as zeros, so block 0 hits in
  a cold set; the LRU statements say so.  Addresses wrap at 64 bits.  The panic of
  `cachesim_ref_is_miss` is an outcome; `NoPanic` says when it is reached.
- **Lines and lengths.** The comments at `cg_main.c:1910` and `cg_arch.c:66` promise that
  no access straddles more than two lines.  The checks beside them look at lines of
  fewer than 16 bytes and at the largest register only, so this can fail: on amd64 a
  client request is one instruction of 19 bytes, and lines of 16 bytes are accepted
  (`ClientRequestPanics`).  Sizes reach the simulator as UChar, so that with lines of
  256 bytes or more a size of 256 arrives as 0, which is refused at the start of a line.
  `SufficientLines` and `InsufficientLines` give the condition on line and instruction
  lengths; `PanicExactly` and `StreamPanicsExactly` give the condition on references.
- **Event queue.** Address atoms, guards and the branch predictors are arbitrary
  functions.  The meaning of a stream is defined without any queue: each event by
  itself, with the generic two-level reference.  A write right after a read of the same
  place by the same instruction is one modify; since that is part of the definition,
  a flush for lack of room between the two would change the result, and the proofs say
  that this never happens.  `MergeCost` compares this with handling the two separately:
  one data write is not counted, and nothing else differs.
- **End to end.** `Ledger` tells the counters without the helpers, each cache being run by
  itself, and `Statements` tells the references and branches without events and items,
  statement by statement; `Profile.SimulateBlock` joins the two.
- **Philosophers.** Freedom from starvation is stated on infinite runs.  Strong
  fairness (whoever is unblocked again and again steps) is a property of the scheduler
  and the mutexes; `NoStarvation` shows that it is exactly what is needed.
- **Quicksort.** The loop at `dump.c:974` swaps without the usual minimum of the two
  run lengths, so with duplicates the result can be unsorted.  The code is kept as it
  is; `SortsExactly` gives the exact condition, the guard of that loop at every level.
- **Adler-32.** The one-byte branch subtracts BASE once.  For an input checksum whose
  halves are not reduced that can be too little; `Update` states exactly when.
- **Load limit of the jCC table.** The comment in `jumps.c` says 80%; integer division
  makes it 90%.  The model follows the code.
- **Address translator.** With all frames in use a new page makes the code write
  behind `mem_map`; the model reports that case and stops.

## Model

| member | source | states |
|---|---|---|
| `ListPool.AddKeeps` | project2/buddy/list.h:40-61 | in a pool of page nodes and heads that represents a family of disjoint lists, linking a node that is on no list behind head k gives a pool that represents the same family with the node pushed onto list k |
| `ListPool.DelKeeps` | project2/buddy/list.h:83-109 | unhooking a node and pointing it at itself gives a pool that represents the same lists without that node, whichever list held it; a node on no list changes nothing |
| `ListPool.MutuallyInverse` | project2/buddy/list.h:21-109 | in every pool that represents lists, `prev` of `next` and `next` of `prev` are the node itself, for every node and head |
| `ListPool.ForEachStep` | project2/buddy/list.h:198-200 | after i steps the iterator is at element i of the list, and it is back at the head exactly after the last element |
| `ListPool.Pool.constructor` | project2/buddy/list.h:30-32 | a pool of self-pointing nodes represents empty lists |
| `ListPool.Pool.InitHead` | project2/buddy/list.h:30-32 | the node points at itself both ways and no other pointer changes |
| `ListPool.Pool.Link` | project2/buddy/list.h:40-48 | the four pointer writes, in the order of the source, have the effect of inserting the node between its neighbours, also when these coincide |
| `ListPool.Pool.Add` | project2/buddy/list.h:58-61 | the node becomes the first element of list k; every other list is unchanged |
| `ListPool.Pool.Unhook` | project2/buddy/list.h:83-87 | the two neighbours point at each other and no other pointer changes |
| `ListPool.Pool.DelInit` | project2/buddy/list.h:105-109 | the node leaves whichever list holds it, order and other lists unchanged |
| `ListPool.Pool.Empty` | project2/buddy/list.h:138-141 | true exactly for the empty list |
| `ListPool.Pool.First` | project2/buddy/list.h:190-191 | the page whose node is first on the list |
| `ListPool.Pool.Visit` | project2/buddy/list.h:198-200 | the loop ends and visits every element of the list once, in list order |
| `BuddyInv.TilingSplit` | project2/buddy/buddy.c:167-184 | replacing a block of a tiling by its two halves gives a tiling |
| `BuddyInv.TilingMerge` | project2/buddy/buddy.c:230-243 | replacing two buddies of a tiling by their union gives a tiling |
| `BuddyInv.StaleSplit` | project2/buddy/buddy.c:213-244 | a stale flag stays explained (right half of a region inside one larger block) when a block is split, except at the page that becomes a block head |
| `BuddyInv.MergeStaleOk` | project2/buddy/buddy.c:230-243 | after a merge every raised flag on a page that heads no block is explained, the newly absorbed right half included |
| `BuddyInv.TakeKeeps` | project2/buddy/buddy.c:158-160 | taking the first block off a list keeps tiling, list/descriptor agreement, full coalescing and the stale-flag clause |
| `BuddyInv.SplitKeeps` | project2/buddy/buddy.c:167-184 | one pass of the splitting loop keeps the same invariant, with the block in transit one level smaller |
| `BuddyInv.MergeKeeps` | project2/buddy/buddy.c:230-243 | one pass of the coalescing loop keeps the same invariant, with the block in transit one level larger |
| `BuddyInv.PutKeeps` | project2/buddy/buddy.c:247 | putting the block in transit on its list keeps the invariant if its buddy is not free |
| `BuddyTheorems.InitValid` | project2/buddy/buddy.c:85-110 | the state after `buddy_init` satisfies the invariant with nothing live |
| `BuddyTheorems.SplitLoop` | project2/buddy/buddy.c:167-184 | the whole splitting loop keeps the invariant, ends at the requested level and raises no flag of a live block |
| `BuddyTheorems.AllocKeeps` | project2/buddy/buddy.c:126-192 | `buddy_alloc` returns a page that headed no live block, adds exactly that block to the live ones and keeps the invariant |
| `BuddyTheorems.MergeTestExact` | project2/buddy/buddy.c:213-244 | the flag test of the coalescing loop passes if and only if the buddy is a free block of exactly that order on that list: stale flags are harmless |
| `BuddyTheorems.CoalesceLoop` | project2/buddy/buddy.c:220-247 | the coalescing loop keeps the invariant and leaves the lists that a loop testing list membership would leave |
| `BuddyTheorems.FreeKeeps` | project2/buddy/buddy.c:203-249 | `buddy_free` of a live block removes exactly that block from the live ones and keeps the invariant |
| `BuddyTheorems.FreeFlags` | project2/buddy/buddy.c:213-243 | for any page, `buddy_free` raises the flag only of the page freed or of one on a list afterwards, leaves it alone for other pages on no list before and after, and lowers it for the absorbed blocks behind the page freed |
| `BuddyTheorems.RegionInOneBlock` | project2/buddy/buddy.c:203-249 | every aligned region without a live page lies inside one free block |
| `BuddyTheorems.CanonicalForm` | project2/buddy/buddy.c:126-249 | page p is on list k if and only if it heads a maximal aligned block of level k disjoint from all live blocks |
| `BuddyTheorems.HistoryIndependence` | project2/buddy/buddy.c:126-249 | two valid states with the same live blocks have the same free blocks at every level |
| `BuddyTheorems.AllFreed` | project2/buddy/buddy.c:203-249 | with nothing live the lists are the single block of MAX_ORDER |
| `BuddyTheorems.AllocComplete` | project2/buddy/buddy.c:137-153 | allocation fails if and only if no aligned region of the least sufficient order is wholly unallocated |
| `BuddyTheorems.AllocBestFit` | project2/buddy/buddy.c:112-160 | a successful allocation takes the first block of the smallest non-empty list that suffices |
| `BuddyTheorems.AllocFreeIdentity` | project2/buddy/buddy.c:148-247 | freeing a block right after allocating it restores every free list, element order included |
| `BuddyTheorems.AllocConserves` | project2/buddy/buddy.c:126-192 | pages on lists plus live pages remain 2^(MAX_ORDER-MIN_ORDER) |
| `BuddyTheorems.FreeConserves` | project2/buddy/buddy.c:203-249 | pages on lists plus live pages remain 2^(MAX_ORDER-MIN_ORDER) |
| `BuddyTheorems.RunSound` | project2/buddy/buddy.c:85-249 | every state of every run of allocations and frees from `buddy_init` satisfies the invariant and conserves memory |
| `BuddyTheorems.RunsConverge` | project2/buddy/buddy.c:85-249 | any two runs that end with the same live blocks end with the same free blocks; with none live both end in the initial lists, whatever the order of the frees |
| `BuddyTheorems.FlagExact` | project2/buddy/buddy.c:51-59 | when the comment on `free` is right: a page is on some free list if and only if its flag is set and no descriptor of a flagged or live page puts it inside a larger block |
| `BuddyTheorems.StaleFlagReachable` | project2/buddy/buddy.c:213-238 | "free is 1 exactly for pages on a list" is false: a concrete run reaches a page that is flagged and on no list |
| `Buddy.AddressMacros` | project2/buddy/buddy.c:27-32 | the two macros are multiplication and division by the page size, and page to address to page is the identity |
| `Buddy.BuddyAddrIsFlip` | project2/buddy/buddy.c:34-36 | the exclusive-or on addresses names the page whose index differs in exactly bit o-MIN_ORDER |
| `Buddy.AllocMeaning` | project2/buddy/buddy.c:126-192 | in bytes: a returned block has the least sufficient power of two, is aligned to its size, lies in memory and is disjoint from all live blocks; failure means no such region exists |
| `Buddy.LiveBlocksApart` | project2/buddy/buddy.c:126-249 | distinct live blocks are disjoint byte ranges |
| `Buddy.Allocator.constructor` | project2/buddy/buddy.c:85-110 | descriptors and pointer lists represent the initial state |
| `Buddy.Allocator.Alloc` | project2/buddy/buddy.c:126-192 | on descriptors and pointer lists in place: NULL and no change, or the address, descriptors, lists and live blocks that the allocation function gives |
| `Buddy.Allocator.FindOrder` | project2/buddy/buddy.c:137-140 | the loop ends at the least sufficient order from MIN_ORDER up |
| `Buddy.Allocator.FindList` | project2/buddy/buddy.c:148-151 | the loop ends at the least order from the given one up whose list is not empty |
| `Buddy.Allocator.TakeFirst` | project2/buddy/buddy.c:158-160 | in place: the first block of the list is taken |
| `Buddy.Allocator.SplitOnce` | project2/buddy/buddy.c:168-183 | in place: one splitting pass |
| `Buddy.Allocator.SplitTo` | project2/buddy/buddy.c:167-184 | in place: the splitting loop down to the requested order |
| `Buddy.Allocator.TakeAndSplit` | project2/buddy/buddy.c:155-190 | in place: steps 3 and 4, with the returned address |
| `Buddy.Allocator.MergeOnce` | project2/buddy/buddy.c:230-243 | in place: one merge, with the lower of the two heads and its address |
| `Buddy.Allocator.CoalesceFrom` | project2/buddy/buddy.c:220-247 | in place: the coalescing loop on addresses, with the test on the flags |
| `Buddy.Allocator.Free` | project2/buddy/buddy.c:203-249 | in place: the state after freeing a live block, which leaves the live set |
| `Buddy.Allocator.Dump` | project2/buddy/buddy.c:256-268 | one count per order, equal to the list length, and the counts weighted by block size plus the live pages are all of memory |
| `Simulator.DoOwns` | project2/buddy/simulator.c:104-239 | a successful command keeps every in-use variable the owner of its own live block |
| `Simulator.FailedAllocBreaksOwnership` | project2/buddy/simulator.c:140-147 | after a failed allocation ownership holds if and only if the variable was not in use: otherwise it stays in use with NULL |
| `Simulator.InputExactly` | project2/buddy/simulator.c:173-239 | bad input is exactly what is malformed or names no letter, and changes nothing; a blank line succeeds and changes nothing |
| `Simulator.FreeEffect` | project2/buddy/simulator.c:160-188 | a free succeeds if and only if the variable is in use; then exactly the block it held stops being live, it is cleared and no other variable changes; otherwise nothing changes |
| `Simulator.FreeTwice` | project2/buddy/simulator.c:176-185 | a second free of the same variable is a double free |
| `Simulator.AllocEffect` | project2/buddy/simulator.c:134-152 | an allocation succeeds if and only if its size is positive and a region of the least sufficient power of two is wholly unallocated; then exactly one block of that size is added, held by the variable, and no other variable changes; otherwise the heap is unchanged and the variable holds NULL |
| `Simulator.FreeMakesRoom` | project2/buddy/simulator.c:134-188 | right behind a free, an allocation of no more bytes than the block had succeeds |
| `Simulator.FileStops` | project2/buddy/simulator.c:246-260 | every run is a number of successful commands, with ownership after them, followed by the end of the file or by one failing command whose outcome is the outcome of the run |
| `Simulator.FileOwns` | project2/buddy/simulator.c:246-260 | over every command sequence that does not end out of memory, whether it ends well, at a double free or at bad input, in-use variables hold live block heads and own pairwise disjoint byte ranges |
| `Simulator.FileOutOfMemory` | project2/buddy/simulator.c:140-147 | a run that ends out of memory ends at an allocation; ownership then holds if and only if its variable was not in use before, and all other in-use variables own pairwise disjoint blocks in either case |
| `Simulator.Program.constructor` | project2/buddy/simulator.c:310-314 | no variable is in use or holds a block, nothing is live, the heap is the initial one, and all parts are new |
| `Simulator.Program.ParseAlloc` | project2/buddy/simulator.c:134-152 | variable table and heap become what the allocation step gives, with its status |
| `Simulator.Program.ParseFree` | project2/buddy/simulator.c:172-188 | double free is refused; otherwise the address passed on is that of a live block and the variable is released |
| `Simulator.Program.ParseCommand` | project2/buddy/simulator.c:199-239 | dispatch with the status of the command; success keeps ownership |
| `Simulator.Program.ParseFile` | project2/buddy/simulator.c:246-260 | commands are executed up to the first that does not succeed, and every `buddy_free` on the way is given a live block |
| `CacheSpec.TouchHit` | lab1/valgrind-3.22.0/cachegrind/cg_sim.c:97-111 | a hit at position i rotates positions 0..i |
| `CacheSpec.TouchMiss` | lab1/valgrind-3.22.0/cachegrind/cg_sim.c:113-119 | a miss shifts the set down and drops the last tag |
| `CacheSpec.TrueLru` | lab1/valgrind-3.22.0/cachegrind/cg_sim.c:87-120 | after any access history a set is the first `assoc` entries of the distinct tags, most recent first, followed by the zero fill |
| `CacheSpec.MissExactly` | lab1/valgrind-3.22.0/cachegrind/cg_sim.c:87-120 | an access misses if and only if its nonzero tag is new, or at least `assoc` distinct other tags were used since its last use (for tag 0, since the start if unused) |
| `CacheSpec.SetRefIncluded` | lab1/valgrind-3.22.0/cachegrind/cg_sim.c:87-120 | a smaller cache that is the recent part of a larger one stays so, and hits only where the larger one hits |
| `CacheSpec.StackInclusion` | lab1/valgrind-3.22.0/cachegrind/cg_sim.c:87-161 | with equal sets and lines and fewer ways, after any reference sequence, straddling references included, every set is a prefix of the other cache's set and there are at least as many misses |
| `CacheSpec.MoreWaysFewerMisses` | lab1/valgrind-3.22.0/cachegrind/cg_sim.c:52-161 | from empty caches the miss count never grows with associativity |
| `CacheSpec.CacheIsLru` | lab1/valgrind-3.22.0/cachegrind/cg_sim.c:87-161 | after any reference sequence every set of a cache is the LRU set of the blocks that fell into it |
| `CacheSpec.CacheMissExactly` | lab1/valgrind-3.22.0/cachegrind/cg_sim.c:87-161 | when the next access of a block misses, in terms of the references so far |
| `CacheSpec.LastLevelSeesMisses` | lab1/valgrind-3.22.0/cachegrind/cg_sim.c:177-213 | a two-level run is a run of the first level by itself and a run of the last level over exactly the first one's misses, and the two counters are their miss counts |
| `CacheSpec.NoXAgrees` | lab1/valgrind-3.22.0/cachegrind/cg_sim.c:186-232 | wherever `cachesim_is_IrNoX` holds, the fast path leaves the same caches and counters as the generic one |
| `CacheHistory.TouchedBytes` | lab1/valgrind-3.22.0/cachegrind/cg_sim.c:124-146 | an accepted reference touches exactly the lines of its bytes |
| `CacheHistory.RefMissExactly` | lab1/valgrind-3.22.0/cachegrind/cg_sim.c:124-161 | behind any sequence of references from an empty cache, the next one is accepted if and only if it touches one line or two neighbouring ones, and then misses if and only if its first line, or its second line behind the first, is a nonzero line new to its set or had at least `assoc` other lines of the set used since its last use |
| `CacheHistory.MissCountExactly` | lab1/valgrind-3.22.0/cachegrind/cg_sim.c:124-161 | a run from an empty cache goes through if and only if every reference is accepted, and its miss count is the number of references that miss by their history |
| `CacheSim.TagArray.constructor` | lab1/valgrind-3.22.0/cachegrind/cg_sim.c:52-78 | the flat zeroed array represents empty sets |
| `CacheSim.TagArray.Shuffle` | lab1/valgrind-3.22.0/cachegrind/cg_sim.c:104-117 | in place: positions 0..i-1 move down by one, the tag goes to the front, nothing else changes |
| `CacheSim.TagArray.RefAt` | lab1/valgrind-3.22.0/cachegrind/cg_sim.c:87-120 | in place: the set becomes the touched set, the result says whether the tag was absent, other slots are unchanged |
| `CacheSim.TagArray.SetRefIsMiss` | lab1/valgrind-3.22.0/cachegrind/cg_sim.c:87-120 | in place on the whole array: one set is touched, all others are unchanged |
| `CacheSim.TagArray.RefIsMiss` | lab1/valgrind-3.22.0/cachegrind/cg_sim.c:124-161 | in place: one line, two lines (both always touched) or the panic, with the miss result |
| `CacheSim.DorefGen` | lab1/valgrind-3.22.0/cachegrind/cg_sim.c:177-213 | in place on two levels: caches and counter increments of the two-level reference |
| `CacheSim.DorefFast` | lab1/valgrind-3.22.0/cachegrind/cg_sim.c:189-202 | in place on two levels: the fast path |
| `QueueSpec.CallMeansEvents` | lab1/valgrind-3.22.0/cachegrind/cg_main.c:311-468 | a helper call used under its options leaves caches, predictors and counters as its events handled one by one with the generic functions |
| `QueueSpec.CallsMeanEvents` | lab1/valgrind-3.22.0/cachegrind/cg_main.c:311-468 | the same for any sequence of helper calls, panics included |
| `QueueSpec.EraseKeepsMeaning` | lab1/valgrind-3.22.0/cachegrind/cg_main.c:828-838 | flush points have no effect and a modify counts as one read |
| `QueueSpec.EventsCounted` | lab1/valgrind-3.22.0/cachegrind/cg_main.c:311-468 | over any event stream each event is counted once, in the column of its kind, on its own source line and no other; first-level misses never exceed accesses and last-level misses never exceed first-level ones |
| `Ledger.BookEvent` | lab1/valgrind-3.22.0/cachegrind/cg_main.c:311-468 | one event adds one entry to one column of its source line, with the misses that its own caches, run by themselves over the references before it, give it; or one branch with the verdict of the predictor behind the branches before it |
| `Ledger.StreamBooked` | lab1/valgrind-3.22.0/cachegrind/cg_main.c:311-468 | over every event stream without a panic: each first-level cache ends as run over the references that reach it, the last level as run over the first-level misses of both in their order, the predictors as folded over the branches, and on every line every column has grown by exactly its references, its first-level and last-level misses, its branches and its mispredictions |
| `Ledger.FirstMissTotal` | lab1/valgrind-3.22.0/cachegrind/cg_sim.c:177-213 | summed over lines, the first-level misses of a kind are the miss count of that cache run by itself |
| `Ledger.LastMissTotal` | lab1/valgrind-3.22.0/cachegrind/cg_sim.c:177-213 | summed over lines and columns, the last-level misses are the miss count of the last level run over the first-level misses |
| `CacheQueue.CgState.constructor` | lab1/valgrind-3.22.0/cachegrind/cg_main.c:1097-1101 | an empty queue of any positive capacity |
| `CacheQueue.CgState.Pick` | lab1/valgrind-3.22.0/cachegrind/cg_main.c:722-867 | the chosen helper stands for exactly the events it consumes, and is used only under its options and only for non-crossing instruction reads where it needs that |
| `CacheQueue.CgState.PickNoX` | lab1/valgrind-3.22.0/cachegrind/cg_main.c:738-815 | the same for an instruction read within one line and the one or two events it may be merged with |
| `CacheQueue.CgState.Emit` | lab1/valgrind-3.22.0/cachegrind/cg_main.c:869-876 | appending the call keeps calls plus remaining events equal to the stream |
| `CacheQueue.CgState.FlushEvents` | lab1/valgrind-3.22.0/cachegrind/cg_main.c:700-880 | the queue is empty and the calls emitted so far stand for the whole stream so far |
| `CacheQueue.CgState.Enqueue` | lab1/valgrind-3.22.0/cachegrind/cg_main.c:911-921 | with a flush first if the queue is full, the stream grows by exactly this event |
| `CacheQueue.CgState.AddEventIr` | lab1/valgrind-3.22.0/cachegrind/cg_main.c:882-899 | the stream grows by an instruction read, tagged non-crossing only if it is |
| `CacheQueue.CgState.AddEventDr` | lab1/valgrind-3.22.0/cachegrind/cg_main.c:901-922 | the stream grows by a read, or not at all without cache simulation |
| `CacheQueue.CgState.AddEventDw` | lab1/valgrind-3.22.0/cachegrind/cg_main.c:924-958 | the write merges with the read it follows exactly when the unbatched stream says so, whatever the capacity; otherwise the stream grows by a write |
| `CacheQueue.CgState.AddEventGuarded` | lab1/valgrind-3.22.0/cachegrind/cg_main.c:960-1004 | the stream grows by a guarded reference behind everything queued |
| `CacheQueue.CgState.AddEventBc` | lab1/valgrind-3.22.0/cachegrind/cg_main.c:1007-1025 | the stream grows by a conditional branch, or not at all without branch simulation |
| `CacheQueue.CgState.AddEventBi` | lab1/valgrind-3.22.0/cachegrind/cg_main.c:1027-1045 | the stream grows by an indirect branch, or not at all without branch simulation |
| `CacheQueue.CgState.Barricade` | lab1/valgrind-3.22.0/cachegrind/cg_main.c:1309-1311 | everything so far has been emitted |
| `CacheQueue.CgState.Handle` | lab1/valgrind-3.22.0/cachegrind/cg_main.c:1108-1351 | each call of `cg_instrument` extends the stream as the unbatched definition does |
| `CacheQueue.InstrumentBlock` | lab1/valgrind-3.22.0/cachegrind/cg_main.c:1097-1351 | for every capacity the emitted calls stand for the whole stream; the calls in front of the place of each item never run ahead of the stream, and in front of a flush they stand for exactly the stream up to there |
| `CacheQueue.BatchingPreservesMeaning` | lab1/valgrind-3.22.0/cachegrind/cg_main.c:700-1045 | running the emitted calls leaves the same caches, predictors and counters as each event handled singly |
| `CacheQueue.CapacityIrrelevant` | lab1/valgrind-3.22.0/cachegrind/cg_main.c:700-1045 | any two capacities give the same simulation |
| `CacheQueue.MarkUnique` | lab1/valgrind-3.22.0/cachegrind/cg_main.c:1309-1311 | the number of calls in front of a flush is determined by the events in front of it |
| `CacheQueue.SideExitExact` | lab1/valgrind-3.22.0/cachegrind/cg_main.c:1309-1311 | executing exactly the calls in front of a flush leaves the state that the events in front of it leave |
| `CacheQueue.ItemsBelong` | lab1/valgrind-3.22.0/cachegrind/cg_main.c:1113-1319 | a statement causes at most two calls, and data events carry the current inode |
| `CacheQueue.BlockTagged` | lab1/valgrind-3.22.0/cachegrind/cg_main.c:1108-1328 | in every superblock each data event carries the inode of the instruction read before it, so the inode assertions of `flushEvents` never fail |
| `CacheQueue.InstrumentTagged` | lab1/valgrind-3.22.0/cachegrind/cg_main.c:1108-1351 | the same with the final indirect branch |
| `Statements.StepData` | lab1/valgrind-3.22.0/cachegrind/cg_main.c:1141-1248 | a data statement makes the reference its kind says: a read for loads, load-linked, reading helpers and compare-and-swap, a write for stores, store-conditional and writing helpers unless it is merged with the open read, a guarded one as its guard says; sizes of helpers and compare-and-swap are cut to the shortest line |
| `Statements.StepExit` | lab1/valgrind-3.22.0/cachegrind/cg_main.c:1250-1313 | an exit makes a branch if it is one in guest code, and closes the open read |
| `Statements.StepIMark` | lab1/valgrind-3.22.0/cachegrind/cg_main.c:1121-1139 | an instruction mark makes one instruction read, of the least length if decoding failed, on the line of its address |
| `Statements.BlockRefers` | lab1/valgrind-3.22.0/cachegrind/cg_main.c:1108-1328 | the references and branches of a superblock are those of its statements, one by one and in order |
| `Statements.BlockBooked` | lab1/valgrind-3.22.0/cachegrind/cg_main.c:1108-1351 | after any superblock that runs to its end, caches, predictors and every counter of every line are what its statements and its final jump make them |
| `Statements.FlushPoint` | lab1/valgrind-3.22.0/cachegrind/cg_main.c:1232-1313 | every exit and every load-linked is a flush point: the items up to it are those of the statements up to it |
| `Statements.ExitBooked` | lab1/valgrind-3.22.0/cachegrind/cg_main.c:1309-1311 | the same as at the end, for a superblock that is left at such a statement |
| `Statements.StatementsCounted` | lab1/valgrind-3.22.0/cachegrind/cg_main.c:1113-1319 | the accesses and branches of a line are the number of its statements of each kind: instruction marks, reads, writes not merged, branching exits |
| `Profiling.Profile.constructor` | lab1/valgrind-3.22.0/cachegrind/cg_sim.c:168-173 | three separate caches, given predictors and no counts |
| `Profiling.Profile.FetchGen` | lab1/valgrind-3.22.0/cachegrind/cg_main.c:336-344 | in place: generic instruction read and its count, or the panic |
| `Profiling.Profile.FetchNoX` | lab1/valgrind-3.22.0/cachegrind/cg_main.c:346-354 | in place: fast instruction read and its count |
| `Profiling.Profile.Data` | lab1/valgrind-3.22.0/cachegrind/cg_main.c:424-442 | in place: data reference and its count as read or write, or the panic |
| `Profiling.Profile.Count` | lab1/valgrind-3.22.0/cachegrind/cg_main.c:311-315 | in place: the access is counted, nothing else changes |
| `Profiling.Profile.Conditional` | lab1/valgrind-3.22.0/cachegrind/cg_main.c:450-458 | in place: new predictor state and the two counters |
| `Profiling.Profile.Indirect` | lab1/valgrind-3.22.0/cachegrind/cg_main.c:460-467 | in place: new predictor state and the two counters |
| `Profiling.Profile.Log` | lab1/valgrind-3.22.0/cachegrind/cg_main.c:311-468 | in place: the effect of every helper is that of its value-level definition |
| `Profiling.Profile.LogAll` | lab1/valgrind-3.22.0/cachegrind/cg_main.c:311-468 | in place: a sequence of helper calls up to a panic |
| `Profiling.Profile.Simulate` | lab1/valgrind-3.22.0/cachegrind/cg_main.c:700-1045 | instrumenting a block and executing it on the tag arrays ends in the state that the plain event stream gives |
| `Profiling.Profile.SimulateUpTo` | lab1/valgrind-3.22.0/cachegrind/cg_main.c:1309-1311 | the same for a block that is left at a side exit |
| `Profiling.Profile.SimulateBlock` | lab1/valgrind-3.22.0/cachegrind/cg_main.c:1108-1351 | in place, from the statements of a superblock: the state that the plain event stream gives, and the counters, caches and predictors that the statements make |
| `Profiling.Profile.SimulateToExit` | lab1/valgrind-3.22.0/cachegrind/cg_main.c:1309-1311 | in place: the same for a superblock left at an exit |
| `NoPanic.PanicExactly` | lab1/valgrind-3.22.0/cachegrind/cg_sim.c:124-161 | for every size a UChar can hold, a reference panics if and only if it runs over the end of the address space, or its place in the line plus its size exceed two lines, or it has size 0 and starts at a line |
| `NoPanic.RefusedMono` | lab1/valgrind-3.22.0/cachegrind/cg_sim.c:124-161 | what lines of some length accept, longer lines accept |
| `NoPanic.NoXExactly` | lab1/valgrind-3.22.0/cachegrind/cg_sim.c:222-232 | an instruction takes the fast path if and only if both line sizes agree and its bytes lie in one line |
| `NoPanic.SizeSafeExactly` | lab1/valgrind-3.22.0/cachegrind/cg_sim.c:124-161 | a size is accepted wherever it lies in the address space if and only if it is at most one byte longer than a line |
| `NoPanic.DorefPanicExactly` | lab1/valgrind-3.22.0/cachegrind/cg_sim.c:177-213 | a two-level reference panics if and only if the first level refuses it, or misses and the last level refuses it; with last-level lines no shorter, if and only if the first level refuses it |
| `NoPanic.EventPanics` | lab1/valgrind-3.22.0/cachegrind/cg_main.c:311-468 | one event of any size panics if and only if its reference, under the options and the guard, is refused in the caches it meets |
| `NoPanic.StreamPanicsExactly` | lab1/valgrind-3.22.0/cachegrind/cg_main.c:311-468 | an event stream of any sizes panics if and only if an event is reached whose reference is refused in the caches it meets |
| `NoPanic.StreamPanicsByLines` | lab1/valgrind-3.22.0/cachegrind/cg_main.c:311-468 | with last-level lines no shorter than the others, an event stream panics if and only if it holds a reference that first-level lines refuse, whatever the caches hold |
| `NoPanic.BlockPanicsExactly` | lab1/valgrind-3.22.0/cachegrind/cg_main.c:1108-1351 | the same as for streams for every superblock, whatever its sizes and instruction lengths |
| `NoPanic.BlockSafe` | lab1/valgrind-3.22.0/cachegrind/cg_main.c:1113-1248 | where the lines suffice, statements that meet the assertions of the code cause references of at most a line and a byte only |
| `NoPanic.SufficientLines` | lab1/valgrind-3.22.0/cachegrind/cg_main.c:1910-1927 | where no instruction length exceeds the shortest line by more than a byte and lines are shorter than 256 bytes, a superblock that meets the assertions panics if and only if a reference runs over the end of the address space |
| `NoPanic.InsufficientLines` | lab1/valgrind-3.22.0/cachegrind/cg_main.c:1910-1927 | otherwise, if instruction lines are the shortest, some superblock meets every assertion, stays inside memory and panics in every state of the caches |
| `NoPanic.ClientRequestPanics` | lab1/valgrind-3.22.0/cachegrind/cg_main.c:1129-1138 | the instance on amd64: the 19 bytes of a client request at address 15, with lines of 16 bytes |
| `MergeCost.AgainExactly` | lab1/valgrind-3.22.0/cachegrind/cg_sim.c:87-161 | making the same reference again hits and moves no tag if and only if the cache has more than one line or the reference lies within one |
| `MergeCost.CheckedCache` | lab1/valgrind-3.22.0/cachegrind/cg_arch.c:73-76 | the start-up check of the cache size says that a cache has more than one line |
| `MergeCost.WriteBehindRead` | lab1/valgrind-3.22.0/cachegrind/cg_main.c:934-945 | a write right behind the read of the same place adds one data write to its line and changes nothing else |
| `MergeCost.UnmergeIsPlain` | lab1/valgrind-3.22.0/cachegrind/cg_main.c:924-958 | replacing every modify of the merged stream by its read and write gives the stream that never merges |
| `MergeCost.MergingCosts` | lab1/valgrind-3.22.0/cachegrind/cg_main.c:828-838 | over every stream, caches, predictors, panics and misses are the same with and without merging, and each source line is short of exactly one data write for every modify |
| `MergeCost.MergedAgainstPlain` | lab1/valgrind-3.22.0/cachegrind/cg_main.c:924-958 | the same for the events that instrumentation causes |
| `Philosophers.AroundTheTable` | lab6/pthreads_dp/dp_asymmetric.c:62-81 | the left chopstick of a philosopher is its own, and it is the right one of exactly its left neighbour |
| `Philosophers.StepKeeps` | lab6/pthreads_dp/dp_asymmetric.c:134-188 | every lock, unlock and progress step keeps: a mutex is held by exactly the philosopher whose phase says so |
| `Philosophers.ReachableInv` | lab6/pthreads_dp/dp_asymmetric.c:134-188 | the invariant holds in every reachable state, for any N >= 2 and both acquisition orders |
| `Philosophers.HoldsByPhase` | lab6/pthreads_dp/dp_asymmetric.c:157-182 | which chopsticks a philosopher holds in each phase, by number: the first one by parity between the locks, both while eating, its own between the unlocks |
| `Philosophers.NeighboursExclude` | lab6/pthreads_dp/dp_asymmetric.c:134-188 | neighbours never eat together |
| `Philosophers.OddIsSecond` | lab6/pthreads_dp/dp_asymmetric.c:73-81 | with parity order an odd chopstick is nobody's first |
| `Philosophers.SomebodyBusyMoves` | lab6/pthreads_dp/dp_asymmetric.c:157-182 | with parity order, if somebody is inside the loop body, somebody inside it can step |
| `Philosophers.NoDeadlock` | lab6/pthreads_dp/dp_asymmetric.c:134-188 | every reachable state of the parity-ordered table has an enabled step |
| `Philosophers.LinearProgress` | lab6/pthreads_dp/dp_asymmetric.c:134-188 | in every run of length k from the start, 5*P <= k <= 5*P + 4*N for the sum P of `prog_total` |
| `Philosophers.OwnProgress` | lab6/pthreads_dp/dp_asymmetric.c:184-188 | the progress of a philosopher is the number of rounds it has completed itself, its phase the steps of the current one |
| `Philosophers.CanAlwaysEat` | lab6/pthreads_dp/dp_asymmetric.c:134-188 | from every reachable state of the parity-ordered table every philosopher has a continuation in which it eats |
| `Philosophers.SymmetricDeadlock` | lab6/pthreads_dp/dining_philosophers.c:134-178 | a reachable state of the symmetric table is deadlocked if and only if everybody holds the left chopstick and waits for the right |
| `Philosophers.SymmetricDeadlockReachable` | lab6/pthreads_dp/dining_philosophers.c:134-178 | such a state is reachable for every N >= 2 |
| `Fairness.RunInv` | lab6/pthreads_dp/dp_asymmetric.c:134-188 | the invariant holds at every time of every infinite run |
| `Fairness.Wakes` | lab6/pthreads_dp/dp_asymmetric.c:157-182 | under strong fairness a philosopher whose chopstick becomes free again and again steps, and is still in the same phase when it does |
| `Fairness.RankFalls` | lab6/pthreads_dp/dp_asymmetric.c:157-166 | parity order takes chopsticks by falling rank, for even and odd tables |
| `Fairness.Freed` | lab6/pthreads_dp/dp_asymmetric.c:157-182 | under strong fairness every chopstick of the parity-ordered table becomes free again, by induction on its rank |
| `Fairness.NoStarvation` | lab6/pthreads_dp/dp_asymmetric.c:134-188 | on an infinite run of the parity-ordered table every philosopher begins to eat again and again if and only if the scheduler is strongly fair |
| `Fairness.FairRunExists` | lab6/pthreads_dp/dp_asymmetric.c:134-188 | strongly fair runs exist for every N >= 2 |
| `Fairness.WeakFairnessStarves` | lab6/pthreads_dp/dp_asymmetric.c:134-188 | under weak fairness philosopher 0 of two can stay hungry for ever |
| `QuickSortSpec.InsertionSortSorts` | lab1/valgrind-3.22.0/callgrind/dump.c:917-930 | the short branch sorts |
| `QuickSortSpec.Med3IsMedian` | lab1/valgrind-3.22.0/callgrind/dump.c:900-905 | at most one of the three elements is below the chosen one and at most one above |
| `QuickSortSpec.PivotOfThree` | lab1/valgrind-3.22.0/callgrind/dump.c:932-943 | the pivot is the middle one of seven elements, and for up to forty the median of first, middle and last |
| `QuickSortSpec.PivotOfNine` | lab1/valgrind-3.22.0/callgrind/dump.c:936-942 | for more than forty elements at most five of the nine sampled ones are below the pivot and at most five above |
| `QuickSortSpec.ScanZones` | lab1/valgrind-3.22.0/callgrind/dump.c:946-969 | the partition loop rearranges the range into equal, less, greater, equal |
| `QuickSortSpec.StartMoved` | lab1/valgrind-3.22.0/callgrind/dump.c:973-974 | moving the pivots from the start works if there are no more of them than smaller elements, or no smaller elements |
| `QuickSortSpec.StartStuck` | lab1/valgrind-3.22.0/callgrind/dump.c:973-974 | otherwise pivots stay in front of all smaller elements |
| `QuickSortSpec.EndMoved` | lab1/valgrind-3.22.0/callgrind/dump.c:975-976 | moving the pivots from the end always works, overlapping runs included |
| `QuickSortTheorems.PartitionShrinks` | lab1/valgrind-3.22.0/callgrind/dump.c:946-1008 | both recursive calls together are shorter than the range |
| `QuickSortTheorems.QSortPermutes` | lab1/valgrind-3.22.0/callgrind/dump.c:909-1009 | the result is a rearrangement of the range and touches nothing else, for every input |
| `QuickSortTheorems.SameClean` | lab1/valgrind-3.22.0/callgrind/dump.c:932-976 | whether every partition is roomy depends on the elements of the range alone |
| `QuickSortTheorems.SortsExactly` | lab1/valgrind-3.22.0/callgrind/dump.c:909-1009 | the range ends sorted if and only if at every partition the pivots at the start do not outnumber the smaller elements, or there are none of these; the condition partitions the parts as they are left and never sorts |
| `QuickSortTheorems.SortsDistinctOrShort` | lab1/valgrind-3.22.0/callgrind/dump.c:909-1009 | ranges of fewer than seven, and ranges in which no two elements compare equal, are sorted |
| `QuickSortTheorems.DuplicatesCanStayUnsorted` | lab1/valgrind-3.22.0/callgrind/dump.c:973-974 | 1 1 0 1 2 2 2 is not sorted |
| `QuickSortTheorems.OnePairIsEnough` | lab1/valgrind-3.22.0/callgrind/dump.c:973-974 | 1 1 2 3 0 4 5 6, with a single equal pair, is not sorted |
| `QuickSort.SwapAt` | lab1/valgrind-3.22.0/callgrind/dump.c:891-896 | in place: two elements trade places |
| `QuickSort.SortShort` | lab1/valgrind-3.22.0/callgrind/dump.c:917-930 | in place: the insertion sort |
| `QuickSort.ChoosePivot` | lab1/valgrind-3.22.0/callgrind/dump.c:932-943 | middle, median of three or of nine, by size |
| `QuickSort.Up` | lab1/valgrind-3.22.0/callgrind/dump.c:951-957 | in place: the upward scan |
| `QuickSort.Down` | lab1/valgrind-3.22.0/callgrind/dump.c:958-964 | in place: the downward scan |
| `QuickSort.PartitionAround` | lab1/valgrind-3.22.0/callgrind/dump.c:946-969 | in place: the partition loop with its four pointers |
| `QuickSort.SwapRange` | lab1/valgrind-3.22.0/callgrind/dump.c:974-976 | in place: one of the two pivot-moving loops, overlapping or not |
| `QuickSort.Arrange` | lab1/valgrind-3.22.0/callgrind/dump.c:932-976 | in place: everything before the recursive calls, with the two lengths |
| `QuickSort.Sort` | lab1/valgrind-3.22.0/callgrind/dump.c:909-1009 | in place: ends, rearranges exactly its range, and for a total preorder sorts it if and only if every partition is roomy |
| `Adler32.ChecksumConcat` | lab1/valgrind-3.22.0/auxprogs/valgrind-di-server.c:248-354 | continuing the checksum of x over y is the checksum of x followed by y |
| `Adler32.Deferred` | lab1/valgrind-3.22.0/auxprogs/valgrind-di-server.c:255-259 | sums without reduction have the residues of the sums of section 2.2 of RFC 1950 |
| `Adler32.NoOverflow` | lab1/valgrind-3.22.0/auxprogs/valgrind-di-server.c:251-253 | within NMAX bytes, from any 16-bit halves, neither sum reaches 2^32 |
| `Adler32.ReduceIsMod` | lab1/valgrind-3.22.0/auxprogs/valgrind-di-server.c:263-290 | the chain of conditional subtractions from BASE<<k down is the remainder for every value below BASE<<(k+1) |
| `Adler32.ChecksumClosed` | lab1/valgrind-3.22.0/auxprogs/valgrind-di-server.c:248-354 | the recurrence of section 2.2 of RFC 1950 has the closed form: low half old low half plus all bytes, high half old high half plus all partial sums, both modulo 65521 |
| `Adler32.ModulusIsPrime` | lab1/valgrind-3.22.0/auxprogs/valgrind-di-server.c:250 | the modulus has no divisor between 1 and itself |
| `Adler32.LargestModulus` | lab1/valgrind-3.22.0/auxprogs/valgrind-di-server.c:250 | every larger number below 65536 has one |
| `Adler32.LargestBlock` | lab1/valgrind-3.22.0/auxprogs/valgrind-di-server.c:251-253 | NMAX is the largest length for which the 32-bit bound holds |
| `Adler32.ModIsMod` | lab1/valgrind-3.22.0/auxprogs/valgrind-di-server.c:263-290 | MOD is the remainder for every 32-bit value, MOD4 for every value below 32*BASE |
| `Adler32.SplitIs` | lab1/valgrind-3.22.0/auxprogs/valgrind-di-server.c:295-297 | shift and mask give the two halves |
| `Adler32.Recombine` | lab1/valgrind-3.22.0/auxprogs/valgrind-di-server.c:353-354 | or and shift give 65536*s2 + s1 |
| `Adler32.SingleByte` | lab1/valgrind-3.22.0/auxprogs/valgrind-di-server.c:299-308 | the one-byte branch meets the definition if and only if s2 + (s1+b) mod BASE < 2*BASE |
| `Adler32.ShortBuffer` | lab1/valgrind-3.22.0/auxprogs/valgrind-di-server.c:314-324 | the branch below 16 bytes meets the definition for all 16-bit halves |
| `Adler32.LongBuffer` | lab1/valgrind-3.22.0/auxprogs/valgrind-di-server.c:326-354 | the blocked loops meet the definition for all 16-bit halves, in wrapping 32-bit arithmetic |
| `Adler32.Update` | lab1/valgrind-3.22.0/auxprogs/valgrind-di-server.c:248-354 | for every 32-bit input checksum, buffer and length the result is the closed form of the definition if and only if the input is not one of the one-byte exceptions; NULL gives 1 for every length but 1 |
| `Adler32.ReducedIsExact` | lab1/valgrind-3.22.0/auxprogs/valgrind-di-server.c:299-308 | an input checksum with both halves below 65521 is never an exception |
| `Adler32.ChecksumIsReduced` | lab1/valgrind-3.22.0/auxprogs/valgrind-di-server.c:248-354 | every checksum of the definition has both halves below 65521 |
| `Adler32.UnreducedCanFail` | lab1/valgrind-3.22.0/auxprogs/valgrind-di-server.c:299-308 | halves 65520 and 65535 with byte 0 are an exception |
| `JccTable.HashMoves` | lab1/valgrind-3.22.0/callgrind/jumps.c:75-78 | what determines the bucket: 0 for the zero key, one, seven and thirteen buckets on for the next caller, callee and jump, and 32 bits of the sum only |
| `JccTable.PushPlaced` | lab1/valgrind-3.22.0/callgrind/jumps.c:105-106 | linking a jCC in at the head of the bucket of its hash keeps every jCC in exactly its own bucket, once |
| `JccTable.PushLinked` | lab1/valgrind-3.22.0/callgrind/jumps.c:105-106 | the same on the next pointers: all chains stay represented |
| `JccTable.PendingStep` | lab1/valgrind-3.22.0/callgrind/jumps.c:99-114 | relinking the current jCC leaves the not yet visited rest of the old chains intact |
| `JccTable.FillTest` | lab1/valgrind-3.22.0/callgrind/jumps.c:139-142 | the integer test resizes exactly when the table would be at least 90% full (the comment beside it says 80%) |
| `JccTable.JccHash.constructor` | lab1/valgrind-3.22.0/callgrind/jumps.c:37-51 | an empty table of any positive size |
| `JccTable.JccHash.MoveChain` | lab1/valgrind-3.22.0/callgrind/jumps.c:95-115 | one old chain is moved: old rest and new chains together hold every jCC once |
| `JccTable.JccHash.Resize` | lab1/valgrind-3.22.0/callgrind/jumps.c:81-127 | no jCC is lost, duplicated or renamed, each ends in the bucket of its new hash |
| `JccTable.JccHash.NewJcc` | lab1/valgrind-3.22.0/callgrind/jumps.c:134-180 | exactly the new jCC is added, the table grows to 2*size+3 buckets exactly if it would be 90% full, and uniqueness is kept |
| `JccTable.JccHash.Search` | lab1/valgrind-3.22.0/callgrind/jumps.c:209-217 | the chain search finds the jCC of the arc or there is none |
| `JccTable.JccHash.GetJcc` | lab1/valgrind-3.22.0/callgrind/jumps.c:184-230 | returns the one jCC of the arc, shortcuts included, creates one only if there was none, and afterwards a shortcut leads to it |
| `JccTable.GetAll` | lab1/valgrind-3.22.0/callgrind/jumps.c:184-230 | over every sequence of lookups from an empty table, two results are the same jCC if and only if the arcs are equal |
| `PageMap.FormAddress` | lab8/VM_addr_map.c:72-98 | shift, mask and or give frame*2^p + offset |
| `PageMap.InSpace` | lab8/VM_addr_map.c:98 | the physical address is below 2^phy_size |
| `PageMap.PhysicalInjective` | lab8/VM_addr_map.c:98 | physical addresses are equal if and only if frames and offsets are |
| `PageMap.Mmu.constructor` | lab8/VM_addr_map.c:37-60 | no page mapped, no frame used |
| `PageMap.Mmu.Reference` | lab8/VM_addr_map.c:66-100 | a known page keeps its frame, the k-th new page gets frame k; it fails exactly for a new page with all frames in use |
| `PageMap.TranslateAll` | lab8/VM_addr_map.c:63-104 | a reference sequence is translated if and only if it touches no more distinct pages than there are frames, and reference i goes to the frame whose number is the rank of its page in order of first use |
| `PageMap.TranslationInjective` | lab8/VM_addr_map.c:63-104 | equal logical addresses have equal physical ones, different ones different ones, and all lie in physical memory |

## Left out

- The rest of `list.h` (tail insertion, moves, splicing, backward iteration): the allocator does not use it.
- Text input and output of `simulator.c` and `VM_addr_map.c`: the models start from parsed commands and addresses; the `K` suffix and whitespace removal are part of parsing.
- Buddy.Allocator.Alloc: sizes above 2^30 are excluded, because the shift in the order search is undefined for them.
- Simulator.Program.ParseAlloc: the same bound on sizes; NULL is passed to `buddy_free` only after a failed allocation, and `main` stops there.
- PageMap.Mmu.Reference: addresses outside the logical address space are excluded, because the code indexes `page_table` out of bounds for them; 32-bit limits of the address arithmetic are not modelled.
- CacheSim.TagArray.RefIsMiss: the number of sets and the line size are powers of two, as the option checks outside this file ensure.
- Profiling.Profile.Log: counters are unbounded where the code has 64 bits; the branch predictors of `cg_branchpred.c` are arbitrary functions.
- NoPanic.InsufficientLines: speaks of configurations in which instruction lines are the shortest; with shorter last-level lines the panic also needs a first-level miss, which `StreamPanicsExactly` covers.
- CacheQueue.BlockTagged: construction of VEX IR, the lookup of debug information and the widening of exit guards are not modelled; a superblock is its sequence of relevant statements from the first instruction mark on.
- QuickSort.Sort: `cmp` is a pure function on elements with `cmp(x, x) == 0`, which termination needs; debug output is not modelled.
- Adler32.Update: a NULL buffer with length 1 is excluded, because the code reads through it.
- Adler32.LongBuffer: the sixteen-fold unrolled macro is a loop over the same bytes.
- JccTable.JccHash.GetJcc: jCCs are numbered instead of heap-allocated, BBCC addresses are numbers, and the per-caller chains, cost fields, statistics and 32-bit overflow of the table size are not modelled; `from` is a BBCC, since the code dereferences it.
- Philosophers.NoDeadlock: the model ends when `Stop` is set; the shutdown phase, in which `main` unlocks mutexes it does not own, the random think and eat loops and the per-session counter `prog` are not modelled.
- `lab6/pthreads_dp/dp_waiter.c`: its protocol is unfinished.
- The fork, pipe, FIFO, shared-memory, mmap, signal and procfs labs and the `lab5` counters: system-call plumbing or easy invariants.
- Everything else in Valgrind: Callgrind's own cache models, contexts and call stacks, option handling, profile files, sockets, decompression and CRC code.
