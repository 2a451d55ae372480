# Valkyrie kernel: verified model

A Dafny model of the state-keeping parts of the valkyrie kernel for the Raspberry Pi 3, with
proofs of what every operation keeps and of whole runs. `dafny verify dfyconfig.toml` checks it.

What is modelled, and the main results:

- **Page allocator** (`Dyadic`, `BuddyState`, `BuddySteps`, `Buddy`, `BuddyRuns`; mm/BuddyAllocator.cc).
  In every reachable state the 512 frames are partitioned into aligned power-of-two blocks, each live or
  on exactly the list of its order, and no two free buddies coexist. Hence at every point of every run a
  request fails only when the caller's own blocks leave no aligned run, and once everything is returned
  the zone is as constructed. Each address answered is a function of the calls before it.
- **Address spaces** (`PageTables`, `TreeWalks`, `Descriptors`, `PhysicalMemory`, `VirtualMemory`,
  `MemoryRuns`; mm/VirtualMemoryMap.cc, reference counts of mm/MemoryManager.cc, fault step of
  kernel/Exception.cc). Tables are frames of 64-bit words; their meaning forms trees and refines a flat
  map; each count equals the number of leaves on its frame; a writable leaf is alone on its frame. Over
  every run of map, unmap, fork, stores, loads, reset and destroy on any number of spaces, copy-on-write
  answers as if fork had copied every page, and refuses exactly what is impossible.
- **Small-object allocator** (`SlobState`, `SlobSteps`, `Slob`, `SlobRuns`; mm/SlobAllocator.cc).
  Chunks tile the owned pages, boundary tags and bins agree with the tiling, and chunks handed out are
  disjoint and large enough over every run. Which chunk serves a request, which lists and sizes change
  and what a returned chunk is joined with is stated exactly. The code breaks this on one kind of request, an unsorted
  chunk of exactly the wanted size with another chunk behind it, and on no other; that is proved in both
  directions, and a run of five calls gets there.
- **Heap front end** (`Kasan`, `KernelHeap`, `HeapRuns`; mm/MemoryManager.cc, mm/AddressSanitizer.cc).
  Over every run of kmalloc, get_free_page and kfree the callers' regions in both zones are disjoint and
  large enough, null is answered exactly when the allocator in charge has no room, and kfree reaches the
  allocator that issued the pointer. The sanitizer's table is the live set exactly as long as never more
  than 1000 pointers were live; a pointer issued while the table is full can never be given back without
  halting the kernel, and 1001 requests get there.
- **Processes** (`ProcessTree`, `Tasks`, `TaskRuns`, `TaskLedger`; proc/Task.cc, proc/TaskScheduler.cc).
  One owner per task, parents that exist, exact reaping with nested zombies and adoption by init, exact
  `get_by_pid`. Over every run each answer is a function of the events: a child belongs to whoever forked
  it, wait reports the child that exited first, once and with its exit code, and finds no children exactly
  when all have been reaped; the places tasks move up in the queue are exact.
- **FAT32 files** (`FatVolume`, `Fat32`, `FatFile`; fs/FAT32.cc). On a byte-level disk, when a save can
  be read back. The inode a file was created with can save again and again, as long as the disk has
  room. A save through an inode from a lookup leaves the entry alone and is lost unless the bytes were
  there already; this includes a file that was empty, for which the lookup names the root directory. A
  save changes the first table, the clusters taken and the entry, and no other sector.
- **Program start and names** (`Argv`, `Encoding`, `KMath`; proc/Task.cc, lib/Encoding.cc, lib/Math.cc).
  Arguments survive the copy to the user stack; the exact set of UCS-2 strings that survive conversion
  to UTF-8 and back, and the exact set for which the bytes are UTF-8 at all.
- `Lists`, `Buffers` and `Runs` hold what several parts use; `Runs` says what a run is: calls, answers
  and the states in between.

How the classes are built: a class has the source's fields, a `View()` that gathers them into a value,
and methods whose contracts say which function or relation on that value they realise; the invariants
are proved about the value. Ghost fields record what the memory means (which block owns a frame, which
page a table entry stands for, the pages of the eager machine).

Where documentation and code differ, the code is followed: kmalloc and get_free_page hand the null of a
failed allocation to the sanitizer, which then halts the kernel while it has an empty slot; a request of
size zero gets a page from the page allocator; `set_content` does not remember the first cluster it has
just allocated, nor does it change the entry of a file that has one; fork turns read-only pages into
copy-on-write ones and drops execute-never; ucs2utf makes the lead byte of a two-byte character from its
low bits, where UTF-8 has the upper ones.

## Model

| member | source | states |
|---|---|---|
| KMath.Pow | lib/Math.cc:6-12 | the loop computes base to the power exponent, 1 for exponents of zero and below |
| KMath.Log2 | lib/Math.cc:33-39 | the result is the k with 2^k <= x < 2^(k+1), and 0 for x = 0 |
| KMath.RoundUpToPowOf2 | lib/Math.cc:41-47 | the least power of two that is at least x, and 1 for x = 0 |
| KMath.RoundUpToMultipleOfN | lib/Math.cc:49-55 | the least positive multiple of n that is at least x, so n itself for x = 0 |
| Dyadic.XorSibling | mm/BuddyAllocator.cc:277-279 | for an aligned index, flipping bit k adds or subtracts 2^k according to the half it lies in |
| Dyadic.XorInvolution | mm/BuddyAllocator.cc:277-279 | the buddy of the buddy is the block itself |
| Buddy.CoveringOrderLeast | mm/BuddyAllocator.cc:281-296 | the order used for a request is the least whose block covers it; size 0 counts as one page |
| Buddy.ServedBlockCoversIff | mm/BuddyAllocator.cc:35-51 | among the sizes on which the size computation ends, the block served covers the request if and only if the size is at most 2^42: beyond 2^43 the page count is truncated to zero |
| Buddy.SizeToOrder | mm/BuddyAllocator.cc:281-284 | floor of the binary logarithm of the page count as a 32-bit integer |
| Buddy.OrderOfRequest | mm/BuddyAllocator.cc:35-51 | normalising and then taking the logarithm gives exactly the served order |
| Buddy.ZoneOrder | mm/BuddyAllocator.cc:12-15 | the whole zone is one block of order 9 |
| Buddy.BuddyAllocator.constructor | mm/BuddyAllocator.cc:12-29 | the new zone satisfies the invariant, has one free block of order 9 and nothing live |
| Buddy.BuddyAllocator.MarkBlockAsAllocated | mm/BuddyAllocator.cc:169-176 | exactly the 2^order tags of the block become ALLOCATED |
| Buddy.BuddyAllocator.MarkBlockAsAllocatable | mm/BuddyAllocator.cc:178-186 | the first tag of the block becomes its order, the rest DONT_ALLOCATE, nothing else changes |
| Buddy.BuddyAllocator.FreeListDelHead | mm/BuddyAllocator.cc:188-204 | the list loses its first entry and the block its link |
| Buddy.BuddyAllocator.FreeListAddHead | mm/BuddyAllocator.cc:206-228 | the block becomes the first entry of the list of its order; if it is that already nothing changes |
| Buddy.BuddyAllocator.FreeListDelEntry | mm/BuddyAllocator.cc:230-253 | wherever the block stands in its list, that entry and no other is removed; a block that is not listed changes nothing |
| Buddy.BuddyAllocator.GetBuddy | mm/BuddyAllocator.cc:277-279 | below the top order, the other half of the next larger block: the two lie side by side in the zone, the lower one starts a block twice the size, and each is the other's buddy |
| Buddy.BuddyAllocator.SplitBlock | mm/BuddyAllocator.cc:255-275 | halves the block down to the wanted order, leaving each upper half free, tagged and listed |
| Buddy.BuddyAllocator.FindVictim | mm/BuddyAllocator.cc:53-72 | the head of the first non-empty list from the wanted order up, or none |
| Buddy.BuddyAllocator.Allocate | mm/BuddyAllocator.cc:35-84 | null if and only if no naturally aligned run of 2^order free frames exists; otherwise such a run becomes live, it starts at the head of the first list that fits, the upper halves cut off go to the front of the lists of their orders, every other list stays, the invariant holds and no other block changes hands |
| Buddy.BuddyAllocator.TryMerge | mm/BuddyAllocator.cc:96-112 | one round of the merge loop: merges with the buddy exactly when the buddy is wholly free |
| Buddy.BuddyAllocator.Deallocate | mm/BuddyAllocator.cc:86-117 | exactly the returned block stops being live; what it merges to goes to the front of the list of its order, the buddies it absorbed leave theirs, every other list stays, and the invariant, full coalescing included, holds again |
| BuddyState.BuddyIsStart | mm/BuddyAllocator.cc:96-106 | the buddy of a block starts a block of at most its order, so comparing tag and order decides whether it is wholly free |
| BuddyState.NoSmallBlockInRun | mm/BuddyAllocator.cc:86-117 | with full coalescing no block inside an aligned free run is smaller than the run |
| BuddyState.RunInsideFreeBlock | mm/BuddyAllocator.cc:60-72 | every aligned free run lies in one free block at least as large |
| BuddyState.AllocatedIffLive | mm/BuddyAllocator.cc:169-186 | a frame is tagged ALLOCATED if and only if it is inside a live block |
| BuddyState.Canonical | mm/BuddyAllocator.cc:86-117 | two sound states with the same live blocks have the same tags and the same blocks on every list |
| BuddySteps.TakeKeepsInv | mm/BuddyAllocator.cc:53-79 | taking a free block off its list keeps the invariant for the rest and changes nothing live |
| BuddySteps.SplitKeepsInv | mm/BuddyAllocator.cc:265-272 | one split keeps partition, tags, lists and coalescing |
| BuddySteps.CommitKeepsInv | mm/BuddyAllocator.cc:77-79 | marking the block allocated completes an allocation: the invariant holds and the block is live |
| BuddySteps.MergeKeepsInv | mm/BuddyAllocator.cc:96-112 | one merge keeps the invariant and what is live |
| BuddySteps.ReleaseKeepsInv | mm/BuddyAllocator.cc:114-116 | listing and tagging the merged block restores the whole invariant |
| Buddy.NoFitNoRun | mm/BuddyAllocator.cc:60-72 | empty lists from an order up mean that no free run of that order exists |
| Buddy.CarveSpec | mm/BuddyAllocator.cc:74-79 | unlink, split and mark together hand out an aligned free run and keep the invariant |
| Buddy.AllFreedIsInitial | mm/BuddyAllocator.cc:12-29 | a sound state with nothing live is the initial one: a single order-9 block on its list |
| BuddyRuns.Replay | mm/BuddyAllocator.cc:35-117 | any list of requests and returns is performed, and the states in between are a run: the invariant holds in each, each request is answered with null exactly without an aligned free run and otherwise with one, each return ends exactly its block |
| BuddyRuns.OwnedIsLive | mm/BuddyAllocator.cc:35-117 | at every point of every run the live blocks are exactly those the caller has been given and not returned, computed from calls and answers alone |
| BuddyRuns.NullIffTaken | mm/BuddyAllocator.cc:60-83 | at every point of every run a request is answered with null if and only if the caller's own blocks leave no aligned run of its order untouched; otherwise the answer is such a run |
| BuddyRuns.AllReturned | mm/BuddyAllocator.cc:86-117 | whenever the caller of a run has returned everything, tags and lists are as constructed |
| BuddyRuns.KeepsBook | mm/BuddyAllocator.cc:35-117 | at every point of every run the lists, in order, and the live blocks are those computed from the calls alone by taking the head of the first list that fits and returning to the front |
| BuddyRuns.AnswersFromCalls | mm/BuddyAllocator.cc:35-84 | in every run each address answered is a function of the calls before it |
| VirtualMemory.PathIsPageNumber | include/mm/mmu.h:34-39 | two addresses have the same four table indices if and only if they have the same 36-bit page number |
| Descriptors.MapFlagsBits | mm/VirtualMemoryMap.cc:89-92 | the attribute bits map() ends up with touch no address bit, are valid, have the asked permissions and the copy-on-write bit exactly when writable |
| Descriptors.MapWord | mm/VirtualMemoryMap.cc:89-94 | the word map() writes reads back as that frame with the asked permissions |
| Descriptors.TableWord | mm/VirtualMemoryMap.cc:61-64 | the word for a lower table reads back as that table |
| Descriptors.ShareWordMeans | mm/VirtualMemoryMap.cc:201-204 | fork's word keeps the frame and is read-only, copy-on-write and executable whatever it was |
| Descriptors.CopyWordMeans | mm/VirtualMemoryMap.cc:150-161 | the word for a private copy of a user page is again a user page, writable, not copy-on-write, executable, in the new frame |
| Descriptors.CopyWordKeeps | mm/VirtualMemoryMap.cc:156-161 | whatever the old word, its low twelve bits are kept except read-only, which is cleared, and the address is that of the new frame |
| Descriptors.ReclaimWordMeans | mm/VirtualMemoryMap.cc:153-155 | clearing the two bits keeps kind, frame and execute-never |
| Descriptors.ReclaimWordKeeps | mm/VirtualMemoryMap.cc:153-155 | no bit but copy-on-write and read-only changes |
| Descriptors.DecodeKinds | include/mm/mmu.h:19-28 | a word is a table or page, and an accessed user page of normal memory, exactly if its meaning says so |
| Descriptors.ZoneZeroOk | mm/MemoryManager.cc:11-16 | frames side by side from 0x10000000 on, as zone 0 has them, have distinct addresses that fit the address field of a descriptor, so what is asked of a placement of frames can be met |
| PhysicalMemory.TranslateIsResolve | mm/VirtualMemoryMap.cc:37-74 | a walk over the 64-bit words of memory that turns back at any word but a table or page (bits 0 and 1), and at the last level at any but an accessed user page of normal memory (bits 0, 1, 6, 10 and memory type 1), finds the descriptor that a walk over their meanings finds, or neither finds one |
| PhysicalMemory.Frames.StoreTable | mm/VirtualMemoryMap.cc:61-64 | the word written for a new table changes the meaning of memory in that one entry, to that table |
| PhysicalMemory.Frames.StoreMapped | mm/VirtualMemoryMap.cc:89-94 | the word written by map() changes the meaning of memory in that one entry, to the page with the asked permissions |
| PhysicalMemory.Frames.StoreZero | mm/VirtualMemoryMap.cc:109 | clearing a word makes that one entry invalid |
| PhysicalMemory.Frames.StoreShared | mm/VirtualMemoryMap.cc:201-207 | the word fork computes from the parent's entry means the shared page in both tables |
| PhysicalMemory.Frames.StoreCopy | mm/VirtualMemoryMap.cc:156-164 | the word computed for a private copy means a writable user page in the new frame, and its low twelve bits are those of the old word without read-only |
| PhysicalMemory.Frames.StoreReclaimed | mm/VirtualMemoryMap.cc:153-155 | with one reference left the word is edited in place: no bit but copy-on-write and read-only changes, both of which are cleared |
| PageTables.ResolveIsLookup | mm/VirtualMemoryMap.cc:37-74 | the four-level walk over memory finds exactly the entry of a flat map from page to descriptor, and an invalid entry when there is none |
| PageTables.PutLeafKeepsInv | mm/VirtualMemoryMap.cc:94-95 | setting or replacing one leaf with its reference counts keeps the invariant: tables form a tree, counts equal the number of leaves per frame, a writable leaf is alone on its frame |
| PageTables.ClearLeafKeepsInv | mm/VirtualMemoryMap.cc:109-113 | clearing a leaf and dropping its reference keeps the invariant |
| PageTables.AddTableKeepsInv | mm/VirtualMemoryMap.cc:61-64 | adding an empty table keeps the invariant and every translation |
| PageTables.DropLeafKeepsInv | mm/VirtualMemoryMap.cc:178-184 | in a teardown, dropping a leaf's reference and freeing the frame at zero keeps the invariant of the other spaces |
| PageTables.DropTableKeepsInv | mm/VirtualMemoryMap.cc:185-187 | in a teardown, freeing a childless table keeps the invariant of the other spaces |
| PageTables.LastReference | mm/VirtualMemoryMap.cc:153-155 | a count of one means no other leaf of any space uses the frame |
| PageTables.FreeUnreferenced | mm/MemoryManager.cc:89-108 | a free frame has count zero |
| VirtualMemory.Memory.constructor | mm/MemoryManager.cc:11-16 | with all frames free, wherever they are placed, and no space the invariant holds |
| VirtualMemory.Memory.Walk | mm/VirtualMemoryMap.cc:37-74 | with creation the slot's table exists afterwards, without it nothing changes and null means a missing table; no translation, no data and no count changes |
| VirtualMemory.Memory.NewMap | mm/VirtualMemoryMap.cc:12-19 | a new space consists of one empty table and all other spaces are as before; without a free frame the table is null and nothing changes |
| VirtualMemory.Memory.Map | mm/VirtualMemoryMap.cc:76-96 | exactly one page of one space gets a translation, by a word of memory; one frame goes for each table that was missing; counts, tree shape and what every space reads stay right |
| VirtualMemory.Memory.Unmap | mm/VirtualMemoryMap.cc:98-114 | exactly that page loses its translation; tables and free frames stay |
| VirtualMemory.Memory.IsCowPage | mm/VirtualMemoryMap.cc:116-124 | true if and only if the page is mapped with the copy-on-write bit; memory is unchanged |
| VirtualMemory.Memory.CopyPageFrame | mm/VirtualMemoryMap.cc:142-166 | the page becomes writable and is alone on its frame, still a user page the memory walk accepts; with one reference the frame is kept, otherwise one free frame is used; every space reads the same bytes as before |
| VirtualMemory.Memory.HandlePageFault | kernel/Exception.cc:78-93 | SIGSEGV if and only if the page is not mapped copy-on-write; otherwise the page is writable afterwards, one frame is used exactly if its frame was shared, and what spaces read is unchanged |
| VirtualMemory.Memory.UserLoad | mm/VirtualMemoryMap.cc:37-74 | a load reads the byte the space has in the machine whose fork copies everything |
| VirtualMemory.Memory.UserStore | kernel/Exception.cc:78-93 | a store with retries faults at most once, is admitted if and only if the eager machine admits it, changes one byte of one page of one space, and uses a frame exactly if the page was shared |
| VirtualMemory.Memory.MapFresh | proc/Task.cc:374-454 | mapping and filling a fresh page, as mmap does page by page, adds exactly that page |
| VirtualMemory.Memory.DfsKfreePage | mm/VirtualMemoryMap.cc:168-189 | depth-first teardown frees each table below once and each data frame exactly when its last reference goes, and touches no other space |
| VirtualMemory.Memory.Reset | mm/VirtualMemoryMap.cc:26-29 | the space is empty afterwards; every other space keeps its tables, translations and bytes; the frames given back are exactly its own tables and the data frames left without reference |
| VirtualMemory.Memory.Destroy | mm/VirtualMemoryMap.cc:21-24 | nothing of the space is left; the frames given back are exactly its tables, the top-level one included, and the data frames left without reference |
| VirtualMemory.Memory.DfsCopyPageTables | mm/VirtualMemoryMap.cc:191-219 | the child gets its own copy of every table, shares every page read-only and copy-on-write with the parent, and takes exactly one frame per table |
| VirtualMemory.Memory.CopyFrom | mm/VirtualMemoryMap.cc:31-35 | forking by sharing leaves every space with the bytes it would have if fork had copied every page, and takes exactly one frame per table of the parent below the top |
| VirtualMemory.ForkSim | mm/VirtualMemoryMap.cc:201-207 | sharing all pages copy-on-write simulates copying all pages |
| VirtualMemory.GoodCopyOut | mm/VirtualMemoryMap.cc:156-164 | moving one page to a copy of its frame keeps the invariant and the simulation |
| TreeWalks.FreeRelChild | mm/VirtualMemoryMap.cc:185-187 | teardown of one entry's subtree extends the teardown of the entries before it |
| TreeWalks.CopyRelChild | mm/VirtualMemoryMap.cc:209-217 | copying one entry's subtree extends the copy of the entries before it, frames counted |
| MemoryRuns.Ask | mm/VirtualMemoryMap.cc:12-219 | each of create, map, unmap, fork, load, store, reset and destroy is refused exactly when its space or page is missing, its page is taken or frames are short; otherwise it answers and changes pages as the eager machine does and takes or gives back exactly the frames it should |
| MemoryRuns.Replay | mm/VirtualMemoryMap.cc:12-219 | any list of operations is performed on memory that starts empty, and the states in between are a run: the invariant holds in each and each step is as above |
| MemoryRuns.AnswersAsEager | mm/VirtualMemoryMap.cc:142-219 | in every run each load and store that is not refused answers what a machine with copying fork answers after the same operations |
| MemoryRuns.ShowsEagerPages | mm/VirtualMemoryMap.cc:142-219 | at every point of every run the tables show exactly the pages and spaces that the operations so far make in the machine with copying fork |
| MemoryRuns.RefusedIff | mm/VirtualMemoryMap.cc:12-219 | in every run loads, resets and ends of spaces are refused if and only if the space does not exist by then, unmapping also if the page is not mapped; the others if and only if space or page forbid it or fewer frames are free than their exact cost |
| Slob.SlobAllocator.constructor | mm/SlobAllocator.cc:10-17 | an empty heap satisfies the invariant and nothing is handed out |
| Slob.SlobAllocator.BinDelEntry | mm/SlobAllocator.cc:308-334 | removes the chunk from the list for its size if it is there, else changes nothing |
| Slob.SlobAllocator.BinDelHead | mm/SlobAllocator.cc:266-285 | removes the chunk, which for a regular bin must be the first entry |
| Slob.SlobAllocator.BinAddHead | mm/SlobAllocator.cc:287-306 | the chunk becomes the first entry of the list for its size |
| Slob.SlobAllocator.SplitFromTopChunk | mm/SlobAllocator.cc:183-199 | the top chunk shrinks from below by a chunk of the asked size with the recorded previous size |
| Slob.SlobAllocator.SplitFromChunk | mm/SlobAllocator.cc:201-251 | the front of the chunk is handed out, the rest becomes a listed or discarded chunk, and the chunk behind records the new previous size |
| Slob.SlobAllocator.RequestNewPageFrame | mm/SlobAllocator.cc:253-264 | a page not owned before becomes the top chunk, or nothing changes if there is none |
| Slob.SlobAllocator.AllocateUnits | mm/SlobAllocator.cc:30-86 | the pages can still be tiled by chunks afterwards if and only if the request did not hit an unsorted chunk of exactly its size with a chunk behind it; without such a hit the invariant holds, and null means no list, no top chunk and no page could serve it. The chunk served is the head of the bin of that very size, else the first unsorted one that is large enough, else the head of the first larger bin that is not empty; it leaves its list, is cut to the size, what is left goes to the front of the list for its size, and no other list or chunk changes. What no list serves comes from the top chunk, or from a new page once the top chunk has been retired |
| Slob.RetiredSpec | mm/SlobAllocator.cc:57-68 | what is left of a top chunk that is too small becomes a chunk of its own, at the front of the list for its size if it is large enough for one, and no other list or chunk changes |
| Slob.TopServedSpec | mm/SlobAllocator.cc:75 | the front of the top chunk becomes a chunk of the wanted size; the lists and every other chunk stay |
| Slob.SlobAllocator.Allocate | mm/SlobAllocator.cc:19-86 | null for size 0; otherwise as above with the size rounded up, and the payload never starts a page |
| Slob.SlobAllocator.Deallocate | mm/SlobAllocator.cc:88-132 | exactly that chunk stops being handed out; it is joined with a free neighbour in front, and with a free one behind or the top chunk; neighbours absorbed leave their lists, the result is put in front of the list for its size if and only if the one behind was absorbed, and no other list or chunk changes; the invariant holds |
| SlobSteps.SplitKeepsInv | mm/SlobAllocator.cc:222-249 | splitting a chunk in two keeps tiling, tags and bins |
| SlobSteps.CarveKeepsInv | mm/SlobAllocator.cc:189-198 | taking a chunk from the top keeps tiling, tags and bins |
| SlobSteps.NewPageKeepsInv | mm/SlobAllocator.cc:260-263 | a new page as top chunk keeps tiling, tags and bins |
| SlobSteps.JoinKeepsInv | mm/SlobAllocator.cc:104-127 | merging two neighbours keeps tiling, tags and bins |
| SlobSteps.IntoTopKeepsInv | mm/SlobAllocator.cc:117-120 | melting a chunk into the top keeps tiling, tags and bins |
| SlobSteps.ReleaseKeepsInv | mm/SlobAllocator.cc:114-131 | putting the merged chunk on its list, or on none, ends the release with the invariant |
| SlobSteps.ZeroedNotTileable | mm/SlobAllocator.cc:222-237 | once a chunk's header says size zero no assignment of chunks can tile the pages again |
| SlobState.LiveDisjoint | mm/SlobAllocator.cc:19-132 | chunks handed out never overlap |
| SlobState.PayloadUnaligned | mm/SlobAllocator.cc:78-85 | a payload never starts a page, so the alignment panic cannot occur |
| SlobRuns.WouldHit | mm/SlobAllocator.cc:29-42 | a check on the heap that is true exactly when the next request damages the tags |
| SlobRuns.Replay | mm/SlobAllocator.cc:19-132 | any list of requests and returns is performed up to the first that damages the tags, and the states in between are a run: the heap is sound in each, each request is answered with null exactly when no list, top chunk or page can serve it and otherwise with the chunk of the list in charge or from the top, each return ends exactly its chunk and joins it with its neighbours as stated |
| SlobRuns.OwnedHasRoom | mm/SlobAllocator.cc:19-132 | at every point of every run the chunks handed out are exactly those the caller has been given and not returned, each with room for the bytes it asked for |
| SlobRuns.OwnersApart | mm/SlobAllocator.cc:19-132 | at every point of every run what the caller may write through one pointer never reaches the header or payload of another |
| SlobRuns.MeetDamage | mm/SlobAllocator.cc:36-42 | a run that gets there: after three requests of 144 bytes and the return of the second and the first, a request of 304 bytes damages the tags |
| Kasan.AddressSanitizer.MarkFreeChk | mm/AddressSanitizer.cc:10-21 | a recorded pointer is cleared from one slot; an unrecorded one is the panic and changes nothing |
| Kasan.AddressSanitizer.MarkAllocated | mm/AddressSanitizer.cc:23-37 | a recorded pointer is the panic; otherwise a free slot takes it, or with none free it is silently dropped |
| Kasan.FreeSlotIff | mm/AddressSanitizer.cc:30-36 | a slot is free if and only if fewer pointers are recorded than there are slots |
| Kasan.RecordKeepsExact | mm/AddressSanitizer.cc:30-36 | recording a new pointer keeps the table equal to the live set |
| Kasan.EraseKeepsExact | mm/AddressSanitizer.cc:10-16 | clearing a pointer keeps the table equal to the live set |
| Kasan.ExactIffRoom | mm/AddressSanitizer.cc:23-37 | one more live pointer keeps a table that is the live set so if and only if fewer pointers are live than there are slots |
| Kasan.KnownIffLive | mm/AddressSanitizer.cc:10-21 | a table that is the live set knows exactly the live pointers and, while a slot is free, null |
| KernelHeap.AlignmentRoutes | mm/MemoryManager.cc:53-57 | pointers of the page allocator are page-aligned and within zone 0, those of the small-object allocator are not aligned and within zone 1 |
| KernelHeap.LiveRegionsDisjoint | mm/MemoryManager.cc:28-40 | two live pointers never share memory, whichever allocators issued them |
| KernelHeap.MemoryManager.constructor | mm/MemoryManager.cc:11-16 | both zones are sound, nothing is live, the table is empty, and all of it is new |
| KernelHeap.MemoryManager.KMalloc | mm/MemoryManager.cc:28-40 | in every state in which the table lists live pointers, all of them or not: null if and only if no aligned free run (large requests) or no list, top chunk or page (small ones) can serve the size; otherwise a new live pointer, page-aligned exactly for large requests, whose region holds the bytes asked for, up to 2^42, and every other live pointer keeps its memory; the pointer is recorded if and only if the table has an empty slot; a null result halts the kernel if and only if it has one |
| KernelHeap.MemoryManager.GetFreePage | mm/MemoryManager.cc:18-26 | in the same states: null if and only if every frame is allocated; otherwise a fresh aligned frame at either address with room for a page, recorded as above |
| KernelHeap.MemoryManager.EitherAddress | mm/MemoryManager.cc:43-48 | the physical and the kernel virtual address of a live pointer are taken for the same pointer |
| KernelHeap.MemoryManager.KFree | mm/MemoryManager.cc:42-58 | in the same states: panics if and only if the pointer is not on record (null is while a slot is empty), so also for a live pointer that was issued while the table was full; otherwise the allocator that issued the pointer gets it back, the other is untouched, every other live pointer keeps its memory, and exactly that entry leaves the table |
| HeapRuns.Replay | mm/MemoryManager.cc:18-58 | any list of kmalloc, get_free_page and kfree calls is performed from boot, up to the first that halts the kernel, and the states in between are a run: both zones are sound in each, the table lists live pointers, each call answers and acts as above |
| HeapRuns.OwnedHasRoom | mm/MemoryManager.cc:18-58 | at every point of every run the live pointers of both zones are exactly those the callers have been given and not returned, each with room for the bytes it was asked for, up to 2^42 |
| HeapRuns.OwnersApart | mm/MemoryManager.cc:18-58 | at every point of every run what callers may write through two of their pointers never overlaps, whichever allocators issued them |
| HeapRuns.TableMisses | mm/AddressSanitizer.cc:10-37 | at every point of every run the table lists exactly the live pointers without those issued while it was full |
| HeapRuns.ExactIff | mm/AddressSanitizer.cc:23-37 | at every point of every run the table is the live set if and only if never more than 1000 pointers were live up to then; so once it misses a pointer it never is again |
| HeapRuns.OwnFreePanicsIff | mm/AddressSanitizer.cc:10-21 | at every point of every run giving back a pointer one owns halts the kernel if and only if it was issued while the table was full |
| HeapRuns.FillTable | mm/AddressSanitizer.cc:30-36 | a run that gets there: after 1001 requests of 16 bytes the table misses the last pointer, and giving that one back halts the kernel |
| ProcessTree.OneOwner | proc/Task.cc:46-48 | a task is owned by the run queue or by exactly one terminated list, never both |
| ProcessTree.OneActiveParent | proc/Task.cc:46-48 | a runnable task is an active child of exactly its parent |
| ProcessTree.ForkKeepsInv | proc/Task.cc:149-188 | fork keeps the invariant of tree and queue |
| ProcessTree.ForkKeepsInvIff | proc/Task.cc:166-185 | fork keeps the invariant if and only if the child's stack pages were found: the failure path leaves a destroyed child among the active children |
| ProcessTree.ExitKeepsInv | proc/Task.cc:311-331 | exit moves a child from active to terminated and out of the queue, keeping the invariant |
| ProcessTree.AdoptKeepsInv | proc/Task.cc:75-82 | init adopting one orphan keeps the invariant |
| ProcessTree.TakeTerminatedKeepsInv | proc/Task.cc:306-307 | taking the oldest terminated child off its list leaves a sound tree with that child dying |
| ProcessTree.DropKeepsInv | proc/Task.cc:70-85 | a dying task without children can go |
| ProcessTree.ReapingExact | proc/Task.cc:70-85 | destroying a task removes exactly the terminated tasks it owned, directly or not, hands their running children to init and leaves all other lists and exit codes alone |
| Tasks.QueueConserved | proc/TaskScheduler.cc:22-80 | over any run of schedule and enqueue the run queue keeps its tasks as a multiset plus the arrivals |
| Tasks.FrontAfterExactly | proc/TaskScheduler.cc:59-80 | a task at position p becomes current after exactly p calls of schedule, whatever is enqueued meanwhile |
| Tasks.Kernel.constructor | kernel/Kernel.cc:29-31 | the boot state: three tasks without parents in the queue, and the invariant |
| Tasks.Kernel.Schedule | proc/TaskScheduler.cc:59-80 | with two or more tasks the first goes to the end; the tree is unchanged |
| Tasks.Kernel.Fork | proc/Task.cc:149-220 | the child is enqueued last under the next pid, as an active child of the current task; the state is sound afterwards if and only if the stack pages were found |
| Tasks.Kernel.Exit | proc/Task.cc:311-335 | the current task leaves the queue for the end of its parent's terminated list, and the one behind it goes to the end of the queue |
| Tasks.Kernel.Destroy | proc/Task.cc:70-85 | the destructor with its nested destructions: orphans go to init, owned terminated tasks are destroyed, nobody else is touched |
| Tasks.Kernel.Wait | proc/Task.cc:288-309 | one round of the waiting loop: no children, blocked, or the oldest terminated child is reaped with its exit status and exactly what it owned |
| Tasks.Kernel.GetByPid | proc/Task.cc:115-147 | the search ends, and for pids other than 1 and 2 finds the pid if and only if it descends from init through active children |
| TaskRuns.Replay | proc/Task.cc:149-335 | any list of fork, exit, wait and yield events is performed from boot, up to the first where a task without a parent exits or a fork finds no stack pages, and the states in between are a run: each step is exactly the event's effect |
| TaskRuns.InvSound | proc/Task.cc:46-48 | in every state of a run each task has one owner, a parent that exists or none, and is an active child of exactly its parent while it can run |
| TaskRuns.ReapedOnce | proc/Task.cc:288-309 | in every run a child that has been reaped never names a task again |
| TaskRuns.ExitCodeKept | proc/Task.cc:311-335 | in every run a task that has exited never gets back into the queue and keeps its exit code as long as it exists |
| TaskRuns.WaitDeliversExitCode | proc/Task.cc:288-335 | in every run, if a child that wait reports passed a code to exit before, that is the status reported |
| TaskRuns.ReapedHasExited | proc/Task.cc:288-335 | in every run each child that wait reports has exited before, with the status reported |
| TaskRuns.MovesUp | proc/TaskScheduler.cc:59-80 | giving way moves each other task up one place in the queue, an exit two, everything else none; whoever stands right behind one that exits goes to the end |
| TaskRuns.TurnComes | proc/TaskScheduler.cc:59-80 | in every run a task at place p is current as soon as the events since then have moved it up p places |
| TaskLedger.KeepsLedger | proc/Task.cc:149-335 | at every point of every run the queue, the parents, the exit codes and the zombies of each parent, in order, are those of a ledger computed from the events alone: who forked whom, who exited when, who went with a reaped one |
| TaskLedger.AnswersAsLedger | proc/Task.cc:149-335 | in every run each answer, of fork and of wait, is a function of the events before it |
| TaskLedger.ForkMakesChild | proc/Task.cc:149-172 | in every run a fork answers with the pid of a new task whose parent is the one that forked |
| TaskLedger.ForkedParent | proc/Task.cc:70-85 | in every run a task is, as long as it exists, the child of whoever forked it, and of init once that one is gone |
| TaskLedger.NoChildrenIff | proc/Task.cc:288-296 | in every run wait answers that there are no children if and only if none of those the caller forked, or that were left to it as init, still exists |
| TaskLedger.GoneWasReaped | proc/Task.cc:50-85 | in every run a forked task no longer exists only because wait reported it, or a parent whose zombie it was |
| TaskLedger.OldestFirst | proc/Task.cc:298-309 | in every run the child that wait reports exited before every other child of the caller that has exited |
| FatVolume.Regions | include/fs/FAT32.h:132-147 | the table starts behind the reserved sectors with 128 entries in each; cluster 2 starts behind the second copy of the table, and each further cluster sectorsPerCluster later |
| FatVolume.PutFatSpec | fs/FAT32.cc:45-59 | writing a table entry changes that entry, no other and no cluster |
| FatVolume.PutClusterSpec | fs/FAT32.cc:81-83 | writing a cluster changes that cluster, no other and no table entry |
| Buffers.Word32IsLittleEndian | fs/FAT32.cc:31-43 | a table entry is the number its four bytes spell, low byte first |
| Fat32.SetEntryFirstSpec | fs/FAT32.cc:208-216 | the first cluster of a directory entry reads back and its four bytes are the only ones that change |
| Fat32.SetEntryFirstBytes | fs/FAT32.cc:208-216 | the upper half of the number goes to bytes 20 and 21 of the entry and the lower half to bytes 26 and 27, each low byte first |
| Fat32.SetEntrySizeSpec | fs/FAT32.cc:553-554 | the size of a directory entry reads back, stands in its bytes 28 to 31 low byte first, and these are the only ones that change |
| Fat32.ExtendWritten | fs/FAT32.cc:535-556 | one more block extends the chain by a cluster that was free and leaves every other entry and cluster as it was |
| Fat32.AllOnDiskIff | fs/FAT32.cc:61-75 | since the lowest entries are taken first, the chain lies on the disk if and only if the disk had that many free clusters |
| Fat32.ChainUnique | fs/FAT32.cc:518-520 | a chain is determined by its first cluster |
| FatFile.Volume.FatRead | fs/FAT32.cc:31-43 | the little-endian word at place i % 128 of sector reserved + i / 128, or end-of-chain for an index past the table |
| FatFile.Volume.FatWrite | fs/FAT32.cc:45-59 | sets that entry, or does nothing for an index past the table |
| FatFile.Volume.FindFreeCluster | fs/FAT32.cc:61-75 | the lowest zero entry, or -1 when there is none |
| FatFile.Volume.ClusterRead | fs/FAT32.cc:77-79 | cluster n is sector reserved + 2 * tableSize + (n - 2) * sectorsPerCluster in 32-bit arithmetic, which can be one in front of the partition; the buffer is untouched when that lies past the partition |
| FatFile.Volume.ClusterWrite | fs/FAT32.cc:81-83 | sets exactly sector reserved + 2 * tableSize + (n - 2) * sectorsPerCluster in 32-bit arithmetic, which can be one in front of the partition; nothing happens when that lies past the partition |
| FatFile.Volume.ReadBlock | dev/DiskPartition.cc:29-36 | the block of the partition; past its end the buffer is untouched, unless the number on the device wraps to a sector in front of the partition |
| FatFile.Volume.WriteBlock | dev/DiskPartition.cc:38-45 | sets exactly that block; past the end nothing happens, unless the number on the device wraps to a sector in front of the partition |
| FatFile.Inode.AllocateFirstCluster | fs/FAT32.cc:578-595 | the entry names the lowest free cluster, which is not yet marked used |
| FatFile.Inode.RecordSize | fs/FAT32.cc:553-554 | the entry's size field is set; nothing happens for the root |
| FatFile.Inode.SetContent | fs/FAT32.cc:525-560 | blocks go to the lowest free clusters, chained in order; no other entry or cluster changes; on a full table the size stays as it was |
| FatFile.SavedElsewhere | fs/FAT32.cc:525-560 | a save changes no sector but those of the first table, of the clusters taken and of the directory entry |
| FatFile.SecondTableStays | fs/FAT32.cc:525-560 | so the reserved sectors and the second copy of the table stay as they were |
| FatFile.Inode.GetContent | fs/FAT32.cc:509-523 | reading follows the chain to its end, never past the buffer, and returns its blocks in order; null for anything but a regular file |
| FatFile.Inode.Open | fs/FAT32.cc:632-636 | a lookup rebuilds the inode from the entry, taking a first cluster of 0 for the root's |
| FatFile.SavedReadableIff | fs/FAT32.cc:525-560 | whatever inode and entry say of a first cluster: an inode without one moves the entry to the new chain, and the save can be read back if and only if the disk had enough free clusters; in every other case the entry stays, and it can be read back if and only if the bytes were there already, which no chain that leaves the disk holds |
| FatFile.CreatorCanSaveAgain | fs/FAT32.cc:418-446 | the inode a file is created with keeps no first cluster, so each of its saves that fits the disk can be read back |
| FatFile.LookedUpEntryStays | fs/FAT32.cc:528-530 | a save through an inode from a lookup leaves the entry's first cluster as it was, even 0 |
| FatFile.LookedUpSaveLost | fs/FAT32.cc:676-681 | so a save through such an inode whose first block differs from the one found from the entry is lost |
| FatFile.Inode.SaveAndReopen | fs/FAT32.cc:509-637 | save, look up and read gives the bytes saved |
| Argv.CopyStrings | proc/Task.cc:555-564 | each string lies with its terminator at its 16-byte aligned place, below the one after it |
| Argv.CopyPointers | proc/Task.cc:569-578 | the array holds the user addresses of the strings in order, then null, and the strings are untouched |
| Buffers.Word64IsLittleEndian | proc/Task.cc:569-578 | a pointer is the number its eight bytes spell, low byte first |
| Argv.CopyArguments | proc/Task.cc:531-595 | the stack pointer is 16-byte aligned; read through the user mapping it gives argc, argv, every string and the closing null; strings, array and frame never overlap; a null argv gives argc 0 and a null pointer |
| Argv.LayoutApart | proc/Task.cc:555-578 | strings and pointer array never overlap |
| Encoding.EncodeZeroFree | lib/Encoding.cc:38-70 | no byte of an encoded string is taken for the terminator |
| Encoding.NoMoreChars | lib/Encoding.cc:7-35 | decoding never yields more characters than were encoded |
| Encoding.RoundTripIff | lib/Encoding.cc:7-70 | utf2ucs undoes ucs2utf, without reading past the terminator, if and only if characters of 0x80-0x7FF occur only as 0x410 followed by 0x90 or 0xB0 that is last or stands before a character below 0x40 |
| Encoding.WithoutTwoByteSurvives | lib/Encoding.cc:7-70 | in particular strings without such characters come back |
| Encoding.Samples | lib/Encoding.cc:48-53 | a Greek letter before an exclamation mark is lost, the pair 0x410 0x90 comes back |
| Encoding.EncodeIsUtf8Iff | lib/Encoding.cc:43-66 | ucs2utf writes the bit pattern of section 3 of RFC 3629 if and only if every character of 0x80-0x7FF has the same low five bits as its upper ones, because the lead byte of two is made from the low bits |
| Encoding.ConformsIff | lib/Encoding.cc:43-66 | the bytes are UTF-8 of the string as RFC 3629 asks, that is also without surrogates, if and only if in addition no character is one |
| Encoding.AccentLost | lib/Encoding.cc:48-53 | for e with an acute accent, 0xE9, the bytes are C9 A9 and not C3 A9 |
| Encoding.Utf2Ucs | lib/Encoding.cc:7-35 | the loop writes the decoded string and its terminator and nothing behind it |
| Encoding.Ucs2Utf | lib/Encoding.cc:38-70 | the loop writes the encoded string and its terminator and nothing behind it |

## Left out

- Drivers, MMIO, boot code, assembly, TLB maintenance and the context switch itself; a switch is a change of the front of the run queue.
- Locking and interrupt masking: each kernel operation is one step.
- Kernel::panic: for the buddy, slob, page-table and process code a call that would panic is excluded by a precondition; in `Kasan` and `KernelHeap` it is the result false.
- Out-of-memory in page-table code: walk, fork and the fault step of the source use the result of get_free_page unchecked, so enough free frames is a precondition of the methods; `MemoryRuns.Ask` computes the exact number and refuses otherwise.
- VirtualMemory.Memory.Map: a frame that is mapped elsewhere may only be mapped if all its pages are read-only; a second writable page would share its bytes, which the source neither does nor forbids.
- Page frames of `VirtualMemory` come from a set of free frames, not from the `Buddy` class; the two are connected only by order-0 blocks being single frames. Where the frames lie is a parameter: any placement at distinct page addresses.
- Effects of the access permissions beyond reading and writing: execute-never is kept in descriptors but no instruction fetch is modelled.
- get_physical_address, get_unmapped_area, munmap, mmap's argument handling, ELF loading, signals and file descriptors.
- exec's change of stack pages: the arguments are read back through a mapping of the page they were written to; freeing and remapping around it is not modelled.
- Task states, time slices, tick and maybe_schedule; zombies are known by list membership only.
- Tasks are records in a map from pid, and run queue and child lists are sequences; the linking inside include/lib/List.h is not modelled.
- The level-by-level inner loop of get_by_pid is one loop over the same queue.
- TaskRuns.Replay: a fork that finds no stack pages ends the run, because it breaks the tree (`ProcessTree.ForkKeepsInvIff`).
- Tasks.Kernel.Wait: one round of the waiting loop; Blocked stands for going around again after the other tasks have run.
- KMath.Pow: results are unbounded integers; overflow of int is not modelled, and the kernel only raises 2 to orders below 31.
- Headers of the small-object allocator are kept per 16-byte unit beside the payload, so payload writes cannot touch them; sizes and addresses count such units.
- Slob.SlobAllocator.Deallocate: the alignment test of the merge with the previous chunk is made before its header is read, because the source reads a header outside the page there and ignores it.
- Slob.SlobAllocator.SplitFromChunk: the chunk is larger than asked; one of exactly the asked size goes through the same source lines as `SplitExact`, which states what is overwritten.
- Slob.SlobAllocator.RequestNewPageFrame: the zone's page allocator is a set of free pages; which one is handed out is left open.
- Freed chunks that do not absorb the one behind them are on no list, as stated by `Slob.SlobAllocator.Deallocate`; nothing is claimed about reusing them.
- KernelHeap.MemoryManager.KMalloc: nothing is promised for a small request on which the small-object allocator damages its tags; sizes between 2^42 and 2^43 and above 2^63, on which the size computation does not end, are excluded, and with them the wrap-around of size plus header just below 2^64.
- HeapRuns.Replay: a run also ends before a request that damages the tags or on which the size computation does not end.
- FAT32 directories: scanning for a name, creating entries, short and long file names, checksums and the boot sector; a file starts from an existing directory entry.
- FatFile.Volume.ClusterRead: the partition and the clusters its table stands for have numbers below 2^32 on the device.
- FatFile.Inode.SetContent: the size is at most 2^32 - 512, the buffer holds whole blocks, entries 0 and 1 of the table are not zero and the entry's directory cluster is in use.
- FatFile.Inode.GetContent: the chain from the first cluster must be well formed and no longer than the buffer; on others the source loops or overruns.
- Argv.CopyArguments: arguments must fit the page; the source does not check and writes below it.
- Virtual file system, mounts, TmpFS, ProcFS and CPIO: their state is kept in trees of reference-counted pointers, and no property of the parts above depends on them.
- printf, strings, smart pointers, deque, ring buffer and timers: library code whose results none of the contracts above refers to.
