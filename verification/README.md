# RT-Thread kernel and tools: a verified model

This project models the parts of an RT-Thread 4.0 kernel and of its Python tools where a small slip
would be hard to see, and proves what they promise. It needs Dafny 4.11; `dafny verify dfyconfig.toml`
checks everything.

The models take the form of the code. Where the kernel updates state in place there is a class whose
methods do the same updates and are proved against a reference; where the tools compute, there are
functions and lemmas. A section of the kernel that runs with interrupts disabled is one method. An operation
with several sections, or with work outside of them, is split: the steps of rt_timer_start, rt_timer_stop,
rt_thread_suspend, rt_thread_resume and of sending and receiving are methods of their own, so that any
interleaving is a sequence of calls, and each method says when its step keeps the invariant. That condition
is shown to be exact for entering a timer and for clearing its flag, and for both sections of a resume.

- `timer.dfy` (src/timer.c). The skip list of hard timers over wrapping 32-bit ticks refines one stably
  sorted list over an unbounded clock, for any number of levels and any insert counter. `Ticks` says
  exactly when the modular comparisons can be trusted, `Agenda` is the reference, `TimerRuns` covers
  whole runs, `SkipList` the rows, and `TimerSystem` the code.
- `blocks.dfy`, `memheap.dfy` (src/memheap.c) and `smallheap.dfy` (src/mem.c). Two allocators over blocks
  with in-band headers. `Blocks` holds what they share: headers that tile a pool, splitting, merging and
  conserved totals; `Payloads` what header writes leave of live bytes. The first keeps a ring of free
  blocks, the second a cursor to the lowest free block.
- `slabpages.dfy`, `slab.dfy`, `slabsteps.dfy` (src/slab.c). A list of runs of free pages, size classes, zones
  of chunks, the page map, and the allocator on top of them. `SlabSteps` says what each call does to zones,
  lists and pages, that no page is ever lost, and when a free undoes a malloc.
- `sched.dfy` (src/scheduler.c, src/thread.c, src/kservice.c). The ready lists with their two-level bitmap
  for 256 priorities, the lookup of the first bit, rt_schedule and the thread operations.
- `mutex.dfy`, `event.dfy`, `mailbox.dfy`, `mq.dfy` (src/ipc.c). Priority inheritance for one mutex with
  RT_IPC_FLAG_PRIO, the event scan, and blocking sends and receives without lost wake-ups. A thread that
  was woken but has not run yet is in the set `woken`; it runs the same section again.
- `kexpr.dfy`, `kcache.dfy`, `kconfig.dfy`, `kvalues.dfy`, `klaws.dfy`, `kstale.dfy`, `ksyntax.dfy`
  (tools/kconfiglib.py). An evaluation is a decision tree over attributes (visibility, value, selection, user value, user selection)
  because what it reads depends on what it has read; `KconfigGraph` gives the tree of every attribute, with
  the short-circuits of the code, and `KconfigMeaning` says what the trees compute,
  `KconfigLaws` what that means for a user. The cache, its
  invalidation and the printer and parser are built on that; `KconfigStale` has configurations on which the
  cache fails.
- `romfs.dfy` (tools/mkromfs.py). The layout of the image, a reader that only follows fields, and the
  writer.
- `lists.dfy` has what several files share about lists and numbers.

Some natural statements do not hold of the code; there the exact condition is proved instead:

- a dependency edge wherever an evaluation may read, and with it a cache that is always right
  (`KconfigEdges.EdgesCoverIff`, `KconfigStale.StaleSelection`, `KconfigStale.StaleValue`);
- rounding a request, and what a resize to the rounded request keeps (`Requests.RoundCovers`,
  `Requests.RoundKeepsIff`, `SmallHeap.WrappedRequestFrees`, `MemHeap.WrappedRequestShrinks`);
- the test for room when a block grows (`MemHeap.GrowPlaceIff`, `MemHeap.WrongPlace`);
- the strict comparisons of two allocators (`MemHeap.StrictTestMisses`, `SmallHeapModel.StrictBoundMisses`);
- the free pages after a malloc and a free (`SlabSteps.RoundTrip`, `Slab.NewZoneStays`);
- the end of the search in a tiny heap (`SmallHeapModel.SearchEndsIff`);
- the cursor after shrinking (`SmallHeapModel.ShrinkLowest`): the comment in src/mem.c:131 calls `lfree` the
  lowest free block, which after rt_realloc is so only under that condition;
- periodic timers with interval zero (`Agenda.CheckEndsIff`);
- interrupted starts, stops and resumes (`TimerRuns.EnterOnceIff`, `TimerRuns.WrapInsertIff`,
  `TimerSystem.ClearedAgreesIff`, `SchedulerModel.DetachIff`, `SchedulerModel.AttachIff`);
- the eight-bit nesting count of a mutex (`PrioMutex.ReleasesPairUp`), and hand-over in order of arrival
  (`PrioMutex.HandOverIff`).

## Model

| member | source | states |
|---|---|---|
| `Ticks.StopsBeforeExact` | src/timer.c:359-366 | On clock values less than 2^32 apart, the insertion test on 32-bit ticks decides as the unbounded clock does if and only if the distance lies in the half-range window. |
| `Ticks.IsDueExact` | src/timer.c:512-516 | The expiry test on 32-bit ticks agrees with `deadline <= now` if and only if the distance lies in the window. |
| `Ticks.SubWrap` | src/timer.c:359-366 | 32-bit subtraction of two wrapped clock values is the wrapped difference. |
| `Agenda.ArmOk` | src/timer.c:296-412 | Plain insertion keeps the reference list stably sorted by deadline. |
| `Agenda.DisarmOk` | src/timer.c:121-129 | Removing a timer keeps the reference list sorted. |
| `Agenda.SortedUnique` | src/timer.c:342-391 | A stably sorted list is determined by its timers: two sorted lists with the same members are equal. |
| `Agenda.FrontExactly` | src/timer.c:507-547 | In a sorted list the expired timers are exactly those in front. |
| `Agenda.FireSettles` | src/timer.c:502-547 | The expiry loop fires exactly the expired timers, keeps the others, re-arms periodic ones at now plus interval, and leaves none expired. |
| `Agenda.TurnsReachFire` | src/timer.c:507-547 | The loop is done after exactly as many turns as there are expired timers. |
| `Agenda.ZeroIntervalSpins` | src/timer.c:532-538 | With an expired periodic timer of interval zero the loop has work left after any number of turns. |
| `Agenda.CheckEndsIff` | src/timer.c:507-547 | The loop ends if and only if no expired periodic timer has interval zero. |
| `TimerRuns.StepReachable` | src/timer.c:296-447 | Every step of a start, of a stop, every reconfiguration and every tick keeps the list sorted and all deadlines near enough for the 32-bit tests, for any bound on the delay between the steps of a start. |
| `TimerRuns.Run` | src/timer.c:296-553 | Every run of enabled steps, in any interleaving, ends in a reachable state. |
| `TimerRuns.ComparisonsExact` | src/timer.c:359-366 | In every run, across any number of wrap-arounds and with any permitted delay, both 32-bit tests decide as the unbounded clock does. |
| `TimerRuns.StartTakesEffect` | src/timer.c:323-396 | Whatever happens between computing the timeout and entering the list, a start succeeds with the deadline it computed, if nobody else starts the timer and no more ticks pass than the bound. |
| `TimerRuns.EnterOnceIff` | src/timer.c:327-396 | Entering a timer keeps the list sorted if and only if nobody else has entered it since it was taken out. |
| `TimerRuns.WrapInsertIff` | src/timer.c:345-367 | Inserting by the 32-bit tests is plain insertion if and only if no earlier deadline is too far back and the next later one is less than half the range ahead. |
| `TimerRuns.DelayMisplaces` | src/timer.c:323-327 | One tick between the steps of a start is enough to put a timer that is due behind one that is not, with intervals the kernel allows. |
| `SkipList.TowerRows` | src/timer.c:342-391 | Each row of the skip list is a subsequence of the row below it. |
| `SkipList.TowerDrop` | src/timer.c:121-129 | Removing a timer from every row removes it from the list the rows stand for. |
| `SkipList.TowerRaise` | src/timer.c:376-391 | Whatever number of upper rows takes the timer, the rows stand for plain sorted insertion. |
| `TimerSystem.TimerList.constructor` | src/timer.c:679-687 | An empty timer list represents an empty agenda at tick 0. |
| `TimerSystem.TimerList.Remove` | src/timer.c:121-129 | The timer is unlinked from every row and nothing else changes. |
| `TimerSystem.TimerList.Scan` | src/timer.c:345-367 | The scan of one row stops where plain insertion would put the timer, starting from any earlier timer of the row. |
| `TimerSystem.TimerList.FindRowHeads` | src/timer.c:342-370 | The search finds the insertion point of every row although each row starts from the point found above. |
| `TimerSystem.TimerList.Link` | src/timer.c:376-391 | The bottom row and the rows the insert counter selects get the timer in its sorted place. |
| `TimerSystem.TimerList.Withdraw` | src/timer.c:309-315 | The first section of a start takes the timer out of every row and clears its flag. |
| `TimerSystem.TimerList.Date` | src/timer.c:319-324 | Computing the timeout of a timer that is in no row changes nothing else. |
| `TimerSystem.TimerList.Enter` | src/timer.c:326-396 | The second section of a start puts the timer into its sorted place in every row that takes it and sets its flag, however late it comes within the bound. |
| `TimerSystem.TimerList.Unlink` | src/timer.c:435-441 | The section of a stop takes the timer out of every row; its flag is still set. |
| `TimerSystem.TimerList.Clear` | src/timer.c:443-444 | Clearing the flag afterwards completes the stop. |
| `TimerSystem.ClearedAgreesIff` | src/timer.c:443-444 | Clearing the flag keeps flags and list in agreement if and only if nobody has started the timer meanwhile. |
| `TimerSystem.TimerList.Start` | src/timer.c:296-412 | Without interruption the three steps arm the timer in the reference list: stable sorted insertion at now plus interval, in every row that takes it. |
| `TimerSystem.HeightIff` | src/timer.c:376-391 | A timer enters k rows above the bottom one if and only if the insert counter is a multiple of the k-th power of the mask plus 1. |
| `TimerSystem.TimerList.Stop` | src/timer.c:422-447 | Without interruption, stopping fails exactly on inactive timers and otherwise removes the timer from the reference list. |
| `TimerSystem.TimerList.NextTimeout` | src/timer.c:108-119 | The next timeout is the earliest deadline of all active timers, or the maximum tick if there is none. |
| `TimerSystem.TimerList.Check` | src/timer.c:494-553 | The check fires exactly the expired timers in deadline order and leaves the state of the reference expiry loop. |
| `TimerSystem.TimerList.Tick` | src/clock.c:74-100 | A tick advances the clock by one, wraps the register, and runs the check. |
| `TimerSystem.TimerList.Configure` | src/timer.c:459-485 | Setting time and mode changes the configuration and nothing else. |
| `Blocks.SplitTiled` | src/memheap.c:194-217 | Writing a header inside a block keeps the blocks tiling the pool with matching links. |
| `Blocks.MergeTiled` | src/memheap.c:539-580 | Merging a block with its successor keeps the blocks tiling the pool. |
| `Blocks.MergeUndoesSplit` | src/memheap.c:194-217 | Merging restores exactly the headers and links from before a split. |
| `Blocks.SplitTotal` | src/memheap.c:194-235 | How a split changes the summed size of the free or of the used blocks. |
| `Blocks.MergeTotal` | src/memheap.c:539-580 | How a merge changes the summed size of the free or of the used blocks. |
| `Requests.RoundCovers` | src/memheap.c:148-150 | Rounding a request up in 32 bits covers it if and only if it is at most 2^32 - 4. |
| `Requests.RoundWraps` | src/mem.c:431-444 | A request rounds to 0 if and only if it is 0 or above 2^32 - 4. |
| `Requests.RoundKeepsIff` | src/mem.c:431-444 | A resize to the rounded request keeps as much of every block as one to the request if and only if the request is at most 2^32 - 4, for both allocators. |
| `Payloads.SameBlocks` | src/memheap.c:495-595 | Over the same pool the same live blocks mean the same headers, links and flags. |
| `Payloads.PayloadClear` | src/memheap.c:138-281 | No header overlaps the payload of a live block. |
| `Payloads.HeadersOnly` | src/memheap.c:138-281 | Writes confined to headers keep every byte of every block that is live before and after. |
| `Payloads.CopyBytes` | src/memheap.c:408-413 | The copy loop carries the bytes over and touches nothing else. |
| `MemHeapModel.TakeInv` | src/memheap.c:138-281 | Handing out a block keeps the tiling, the coalescing, the free list and the exact free byte count. |
| `MemHeapModel.TakeAllocated` | src/memheap.c:138-281 | Exactly the new block joins the live blocks. |
| `MemHeapModel.ReleaseInv` | src/memheap.c:495-595 | Freeing with its merges keeps the invariants and returns at least the block size. |
| `MemHeapModel.ReleaseAllocated` | src/memheap.c:495-595 | Exactly the freed block leaves the live blocks. |
| `MemHeapModel.ReleaseUndoesTake` | src/memheap.c:495-595 | Freeing what was just handed out restores all headers, links and flags and the free byte count. |
| `MemHeapModel.Canonical` | src/memheap.c:495-595 | The block ring is a canonical form of the set of live blocks. |
| `MemHeapModel.ShrinkInv` | src/memheap.c:419-491 | Shrinking in place keeps the invariants. |
| `MemHeapModel.GrowInv` | src/memheap.c:315-402 | Growing into a free successor keeps the invariants. |
| `MemHeap.FirstFitFound` | src/memheap.c:160-183 | The search finds a fitting block of the free list if and only if there is one. |
| `MemHeap.StrictTestMisses` | src/memheap.c:155-155 | The strict test against the free byte count turns away a request some block could serve if and only if it asks for every free byte. |
| `MemHeap.SeesRoomRight` | src/memheap.c:338-350 | The test for room in a free successor, whose right-hand side wraps at 2^32, is right if and only if the sum does not wrap or wraps to something still too large. |
| `MemHeap.GrowPlaceIff` | src/memheap.c:350-391 | When the test sees room, the new header goes into the free successor if and only if the test is right. |
| `MemHeap.WrongPlace` | src/memheap.c:370-383 | When the test is wrong, the new header goes over the end of the block's own header and over the beginning of its payload. |
| `MemHeap.WrongTest` | src/memheap.c:350-370 | A block of a heap of 1000 bytes for which a request of 2^32 - 4 bytes passes the test. |
| `MemHeap.MemHeap.constructor` | src/memheap.c:50-121 | A new heap has one free block between its two headers. |
| `MemHeap.MemHeap.Search` | src/memheap.c:160-183 | The loop over the free list returns the first block that fits. |
| `MemHeap.MemHeap.Alloc` | src/memheap.c:138-281 | Fails exactly when the strict test or the first-fit search fails; otherwise takes the first fit, and no live payload changes. |
| `MemHeap.MemHeap.Free` | src/memheap.c:495-595 | Frees and merges on both sides as the reference does; no other live payload changes. |
| `MemHeap.MemHeap.Realloc` | src/memheap.c:284-492 | A block that is large enough stays, cut off where a header and a minimal block fit in the surplus; a smaller one grows in place to the rounded size if its successor is free and has the room, and otherwise moves, which fails exactly when no more bytes than that are free or no free block fits; RT_NULL is an allocation that fails under the same condition; up to 2^32 - 4 the first min(old, request) bytes and every other payload are kept; failure changes nothing; size 0 frees. |
| `MemHeap.WrappedRequestShrinks` | src/memheap.c:300-303 | A live block of 100 bytes, of which 2^32 - 1 bytes are requested, shrinks to 12 bytes. |
| `MemHeap.MemHeap.Resize` | src/memheap.c:311-491 | The same for a live block and a rounded size: which of the three cases it is, the exact end of the block, the failure condition, and the bytes kept. |
| `MemHeap.NoFitIff` | src/memheap.c:169-180 | The search along the free list fails if and only if no free block of the heap fits. |
| `MemHeap.FirstFitFirst` | src/memheap.c:169-180 | The block found is the first of the free list that fits. |
| `MemHeapModel.ReleaseList` | src/memheap.c:535-586 | A freed block goes to the front of the free list unless it joined its predecessor; a successor it swallowed leaves the list; the others stay in order. |
| `MemHeapModel.ShrinkList` | src/memheap.c:432-480 | What is cut off goes to the front of the free list in place of a free successor. |
| `MemHeap.MemHeap.Finish` | src/memheap.c:138-281 | After every operation the maximum is the largest use there ever was, and header writes spare live payloads. |
| `SmallHeapModel.FirstFitLowest` | src/mem.c:303-321 | The search finds the lowest free block that fits and starts below the bound, or nothing if and only if there is none. |
| `SmallHeapModel.CursorSkipsUsed` | src/mem.c:305-307 | With the cursor at the lowest free block, searching from it is searching the whole heap. |
| `SmallHeapModel.StrictBoundMisses` | src/mem.c:306-306 | The strict bound turns away a block that fits if and only if it is the last block and fits exactly. |
| `SmallHeapModel.SearchEndsIff` | src/mem.c:300-307 | With its bound in 32 bits the search ends if and only if the size, raised to the minimum, is not larger than the heap. |
| `SmallHeap.SmallHeap.EndsIff` | src/mem.c:305-307 | What rt_malloc requires here is that a search it starts ends. |
| `SmallHeapModel.TakeInv` | src/mem.c:311-378 | Handing out a block keeps the tiling, the coalescing, the cursor and the used byte count. |
| `SmallHeapModel.TakeLowest` | src/mem.c:380-387 | Allocation keeps the cursor at the lowest free block. |
| `SmallHeapModel.Plug` | src/mem.c:156-194 | Plugging holes coalesces, keeps the used byte count and keeps the cursor lowest. |
| `SmallHeapModel.ReleaseInv` | src/mem.c:579-608 | Freeing keeps the invariants and the cursor at the lowest free block. |
| `SmallHeapModel.ReleaseUndoesTake` | src/mem.c:546-609 | With the cursor lowest, freeing what was just handed out restores the whole heap, cursor and count included. |
| `SmallHeapModel.ShrinkInv` | src/mem.c:471-497 | Shrinking in place keeps the tiling, the coalescing, the count and a cursor that is a free block or the end. |
| `SmallHeapModel.ShrinkLowest` | src/mem.c:471-497 | Shrinking leaves the cursor lowest if and only if the block lies above the cursor or is followed by a free block that is the cursor. |
| `SmallHeapModel.ShrinkStrands` | src/mem.c:471-497 | A concrete heap on which shrinking leaves the cursor at the end although there is a free block. |
| `SmallHeapModel.StrandedAtEnd` | src/mem.c:305-307 | With the cursor at the end the search finds nothing, whatever is free. |
| `SmallHeap.SmallHeap.constructor` | src/mem.c:204-257 | A new heap of any size is one free block with the cursor on it. |
| `SmallHeap.SmallHeap.PlugHoles` | src/mem.c:156-194 | The in-place merges and cursor moves are those of the reference. |
| `SmallHeap.SmallHeap.Advance` | src/mem.c:380-387 | The cursor moves to the first free block from where it is, or to the end. |
| `SmallHeap.SmallHeap.Search` | src/mem.c:305-311 | The loop returns the first fit of the reference. |
| `SmallHeap.SmallHeap.Malloc` | src/mem.c:272-410 | Fails exactly on size 0, on a request larger than the heap or when no free block from the cursor on fits; takes the first fit and hands out exactly the rounded size if a header and a minimal block fit behind, else the whole block; counts exactly those bytes as used; spares live payloads; keeps the cursor lowest. |
| `SmallHeap.SmallHeap.Free` | src/mem.c:546-609 | Releases a live block as the reference does, spares every other payload and keeps the cursor lowest; an address outside the heap is ignored. |
| `SmallHeap.SmallHeap.Realloc` | src/mem.c:421-510 | A block of just that size stays, one with a surplus for a header and a minimal block is cut off at the rounded size, any other moves, which fails exactly when no free block fits; RT_NULL is an allocation; up to 2^32 - 4 the first min(old, request) bytes and every other payload are kept; failure changes nothing; size 0, and requests above 2^32 - 4, free the block. |
| `SmallHeap.SmallHeap.Resize` | src/mem.c:458-509 | Which of the three cases a resize of a live block is, the exact end of the block, the exact failure condition, and the bytes kept. |
| `SmallHeapModel.NoFitIff` | src/mem.c:305-312 | The search fails if and only if no free block from the cursor on fits below the bound. |
| `SmallHeapModel.ReleaseCursor` | src/mem.c:596-607 | After a free the cursor is the block that holds the freed address or the old cursor, whichever is lower. |
| `SmallHeapModel.ShrinkCursor` | src/mem.c:471-493 | After a shrink the cursor is the block that holds the old cursor. |
| `SmallHeap.WrappedRequestFrees` | src/mem.c:431-444 | A live block, of which 2^32 - 1 bytes are requested, is freed. |
| `SmallHeap.SmallHeap.ShrinkBlock` | src/mem.c:471-497 | Cuts the block and plugs the hole as the reference does. |
| `PageRuns.Canonical` | src/slab.c:236-322 | The sorted list of maximal runs is a canonical form of the set of free pages. |
| `PageRuns.AllocCanon` | src/slab.c:236-270 | Allocation keeps the runs sorted, disjoint and maximal. |
| `PageRuns.AllocTakes` | src/slab.c:236-270 | What is handed out was free, and exactly those pages stop being free. |
| `PageRuns.AllocFailsIff` | src/slab.c:236-270 | Allocation fails if and only if there are not that many consecutive free pages anywhere. |
| `PageRuns.AllocLowest` | src/slab.c:236-270 | The pages handed out are the lowest free pages that will do. |
| `PageRuns.FreeCanon` | src/slab.c:272-322 | Freeing keeps the runs sorted, disjoint and maximal. |
| `PageRuns.FreeGives` | src/slab.c:272-322 | Exactly the freed pages become free. |
| `PageRuns.RestoredInAnyOrder` | src/slab.c:236-322 | Any sequence of allocations, freed in any order, restores exactly the same list. |
| `PageRuns.PageList.Alloc` | src/slab.c:236-270 | The loop takes the first run that is long enough, splitting it if it is longer. |
| `PageRuns.PageList.Free` | src/slab.c:272-322 | The loop inserts the pages in order and joins them to the runs they touch. |
| `ZoneClasses.ZoneIndexFits` | src/slab.c:401-459 | For 1 to 16383 bytes the chunk covers the request, wastes fewer than 8 bytes below 128 and less than an eighth above, and the index is below 72. |
| `ZoneClasses.ZoneIndexOneToOne` | src/slab.c:401-459 | Index and chunk size determine each other, and every index from 0 to 71 is in use. |
| `ZoneClasses.ZoneIndexLeast` | src/slab.c:401-459 | The class chosen is the smallest that covers the request. |
| `ZoneClasses.PowerTest` | src/slab.c:635-638 | The bit test in the code singles out exactly the powers of two among the chunk sizes. |
| `ZoneClasses.ZoneRoom` | src/slab.c:628-643 | For every zone size and every small request a new zone has room for its header and at least three chunks. |
| `ZoneClasses.PowersAligned` | src/slab.c:631-638 | Chunks whose size is a power of two up to the page size are aligned to their size. |
| `ZoneChunks.FromUnusedOk` | src/slab.c:556-560 | Taking a chunk that was never used keeps the count `nfree = (nmax - 1 - uindex) + free list`. |
| `ZoneChunks.FromListOk` | src/slab.c:561-568 | Taking a chunk from the free list keeps the count and never takes one that is handed out. |
| `ZoneChunks.GiveBackOk` | src/slab.c:830-846 | Giving a chunk back keeps the count and the free list. |
| `ZoneChunks.AllFreeIff` | src/slab.c:854-855 | The count of free chunks equals the capacity if and only if no chunk is handed out. |
| `SlabState.LiveApart` | src/slab.c:539-659 | Everything that is handed out, chunks and large blocks, is pairwise disjoint. |
| `SlabState.LiveInside` | src/slab.c:628-648 | A live chunk lies in its own zone behind the header, a large block in its own pages. |
| `SlabState.PageMapRight` | src/slab.c:795-827 | The page map leads from any live chunk back to its own zone header and from a large block to its length. |
| `SlabState.LiveClear` | src/slab.c:539-659 | No zone header and no free page overlaps anything that is handed out. |
| `SlabState.TakeChunkInv` | src/slab.c:539-568 | Handing out a chunk of a linked zone keeps all invariants; the zone stays linked if and only if it has free chunks left. |
| `SlabState.NewZoneInv` | src/slab.c:625-652 | Handing out the first chunk of a new zone keeps all invariants. |
| `SlabState.GiveChunkInv` | src/slab.c:830-846 | Giving a chunk back keeps all invariants and links the zone if it was full. |
| `SlabState.GrabInv` | src/slab.c:601-622 | Handing out pages keeps zones, lists, page map and the disjointness of everything that is held. |
| `SlabState.ReturnInv` | src/slab.c:885-897 | Returning pages that nothing uses keeps all invariants. |
| `Slab.ChooseZoneSize` | src/slab.c:374-377 | The loop chooses the smallest of the three zone sizes that is at least a 2048th of the heap, or the largest. |
| `Slab.Slab.constructor` | src/slab.c:344-395 | A new heap has no zones; exactly the pages behind the page map are free; the zone size is chosen by the heap size. |
| `Slab.Slab.Malloc` | src/slab.c:478-667 | Fails exactly on size 0, when no run of free pages serves a large request, or when every zone of the class is full, no zone is kept and there are no pages for one; otherwise takes the lowest such pages, the first zone of the list or a new zone, and nothing else; the result is apart from everything live, whose bytes do not change; every page stays free or held by the page map, a zone, a kept zone or a large block. |
| `Slab.Slab.Free` | src/slab.c:771-904 | Exactly this chunk or block is given up and no live byte changes. The pages of a large block become free, and no others. A zone that becomes wholly free stays if it is the only one in its list, is kept if fewer than two are, and otherwise has its pages returned. |
| `Slab.Slab.FreeChunk` | src/slab.c:825-903 | The zone retires if and only if this was its last chunk and its class has another zone with free chunks; otherwise it stays, first in its list if it was full. |
| `Slab.Slab.RetireZone` | src/slab.c:854-900 | A whole free zone leaves its list and is kept if fewer than two are kept, else exactly its pages become free; the counter is the length of the list of kept zones. |
| `Slab.Slab.Realloc` | src/slab.c:678-735 | A chunk of the size class of the request stays; anything else moves, which fails exactly when rt_malloc would; success keeps the first min(old, new) bytes and everything else; failure leaves everything unchanged; size 0 frees. |
| `Slab.Slab.FreeLarge` | src/slab.c:795-820 | A page is free afterwards if and only if it was free or belongs to the block. |
| `SlabSteps.ServedBalanced` | src/slab.c:478-667 | rt_malloc keeps every page free or held, every held run owned, and at most one wholly free zone in a list, at its end. |
| `SlabSteps.GaveBalanced` | src/slab.c:771-904 | rt_free keeps the same. |
| `SlabSteps.FreePagesDetermined` | src/slab.c:236-322 | With that, the runs that are held determine the list of free pages. |
| `SlabSteps.NoChunkIff` | src/slab.c:539-548 | The list of a class is empty if and only if every zone of the class is full. |
| `SlabSteps.LargeCovers` | src/slab.c:495-497 | The pages for a large request are the least number that covers it, except within a page of 2^32, where they are none. |
| `SlabSteps.RoundTrip` | src/slab.c:478-904 | Freeing at once what was allocated restores the list of free pages if and only if the request was large, a zone of its class had a free chunk, or a zone was kept. |
| `Slab.MallocFree` | src/slab.c:478-904 | The same for the two calls on a heap. |
| `Slab.NewZoneStays` | src/slab.c:595-652 | In a new heap of 32 pages a request of one byte, freed at once, leaves other free pages than before. |
| `SlabState.LastInFirstOut` | src/slab.c:545-566 | Once every slot of a zone has been used, the chunk given back last is handed out first. |
| `FirstBit.LowestBitRight` | src/kservice.c:1311-1330 | The table of 256 entries gives the lowest bit that is set in every byte but 0. |
| `FirstBit.FfsRight` | src/kservice.c:1342-1356 | For every word but 0 the result is the lowest bit that is set, numbered from 1. |
| `ReadyLists.InsertIndexed` | src/scheduler.c:671-681 | Inserting a thread keeps both bitmap levels in agreement with the lists. |
| `ReadyLists.RemoveIndexed` | src/scheduler.c:762-775 | Removing a thread keeps both bitmap levels in agreement with the lists. |
| `ReadyLists.HighestRight` | src/scheduler.c:170-192 | The bitmap lookup finds the most urgent list that is not empty. |
| `SchedulerModel.InsertConsistent` | src/scheduler.c:652-686 | After insertion each ready thread is in exactly the list of its priority. |
| `SchedulerModel.RemoveConsistent` | src/scheduler.c:749-779 | After removal each ready thread is in exactly the list of its priority. |
| `SchedulerModel.Scheduler.constructor` | src/scheduler.c:199-247 | At first every list is empty and both bitmap levels are 0. |
| `SchedulerModel.Scheduler.Insert` | src/scheduler.c:652-686 | The current thread becomes running; any other goes to the end of the list of its priority, marked by its stored masks. |
| `SchedulerModel.Scheduler.Remove` | src/scheduler.c:749-779 | The thread leaves its list and the marks are cleared if and only if the list or the byte becomes empty. |
| `SchedulerModel.Scheduler.Schedule` | src/scheduler.c:399-499 | After an unlocked rt_schedule no ready thread has a lower priority number than the running one; the running thread stays if and only if its number is below that of every ready thread, and otherwise goes to the end of its list. |
| `SchedulerModel.YieldTurns` | src/scheduler.c:418-447 | One rt_schedule among equals is one turn of a round robin, and the priority stays the most urgent one. |
| `SchedulerModel.TakeTurns` | src/scheduler.c:418-447 | Any number of calls turns the round by as many places and leaves all other lists alone. |
| `SchedulerModel.RoundRobin` | src/scheduler.c:418-447 | In every run of k calls of rt_schedule among threads of the most urgent priority, the thread k places behind runs at the end, and after a whole round all lists are as before. |
| `SchedulerModel.Scheduler.Startup` | src/thread.c:286-310 | A started thread has its initial priority with matching masks and is last in that list. |
| `SchedulerModel.Scheduler.ChangePriority` | src/thread.c:571-612 | A ready thread moves to the end of the list of its new priority; any other only changes its priority and masks. |
| `SchedulerModel.Scheduler.Suspend` | src/thread.c:656-695 | Without interruption, suspends exactly ready and running threads, taking them off every list. |
| `SchedulerModel.Scheduler.Resume` | src/thread.c:705-739 | Without interruption, resumes exactly suspended threads, at the end of their list or as the running thread. |
| `SchedulerModel.Scheduler.Park` | src/thread.c:674-689 | The section of rt_thread_suspend keeps the lists right whatever the status has become since it was looked at. |
| `SchedulerModel.Scheduler.Detach` | src/thread.c:723-732 | The first section of rt_thread_resume leaves the ready lists alone. |
| `SchedulerModel.Scheduler.Attach` | src/thread.c:734-735 | The second section puts the thread at the end of its list, or lets the current thread run on. |
| `SchedulerModel.DetachIff` | src/thread.c:723-732 | The first section keeps the lists right if and only if nobody has resumed the thread since its status was looked at. |
| `SchedulerModel.AttachIff` | src/thread.c:734-735 | The second section keeps the lists right if and only if nobody has resumed the thread since the first. |
| `SchedulerModel.SecondResume` | src/thread.c:716-735 | Two resumes that are both past their first section list the thread twice. |
| `SchedulerModel.Scheduler.Exit` | src/thread.c:80-115 | The running thread is closed and in no list. |
| `SchedulerModel.Scheduler.Start` | src/scheduler.c:254-278 | No ready thread has a lower priority number than the first thread to run, which was the first of its list and leaves it; nothing else changes. |
| `SchedulerModel.Scheduler.ExitCritical` | src/scheduler.c:868-890 | Leaving the last critical section does what rt_schedule does, so that no ready thread has a lower priority number than the running one; leaving another only counts. |
| `WaitList.Place` | src/ipc.c:92-119 | The thread is put behind everyone at least as urgent and before everyone else. |
| `PrioMutex.HandOver` | src/ipc.c:830-856 | A full release restores every base priority, and the first waiter may own the mutex at its own priority. |
| `PrioMutex.BlockInherits` | src/ipc.c:718-731 | After a more urgent thread blocks, the owner is at least as urgent as every waiter and runs at a priority somebody who asked has. |
| `PrioMutex.Mutex.constructor` | src/ipc.c:527-547 | A new mutex is free and nobody waits. |
| `PrioMutex.Mutex.Take` | src/ipc.c:651-776 | Taken if free or owned by the caller; else times out at once or blocks, boosting the owner if the caller is more urgent. |
| `PrioMutex.Mutex.Timeout` | src/thread.c:748-770 | A waiter that times out leaves the list and nothing else changes. |
| `PrioMutex.Mutex.Release` | src/ipc.c:787-878 | Fails exactly for others than the owner; gives the mutex up if and only if the nesting depth modulo 256 is 1, restoring base priorities and handing over to the most urgent waiter. |
| `PrioMutex.ReleasesPairUp` | src/ipc.c:825-828 | Nested takes and releases pair up if and only if the nesting never exceeds 256. |
| `PrioMutex.Nest` | src/ipc.c:675-830 | A mutex that a thread takes n times is given up after ((n - 1) mod 256) + 1 releases, which is n if and only if n is at most 256. |
| `PrioMutex.Overnest` | src/ipc.c:825-828 | After 257 takes one release gives the mutex up. |
| `PrioMutex.HandOverIff` | src/ipc.c:843-856 | With waiters in any order, as with RT_IPC_FLAG_FIFO, the new owner is at least as urgent as everyone who waits if and only if the first waiter was. |
| `PrioMutex.FifoInverts` | src/ipc.c:86-90 | A queue in order of arrival after whose hand-over the owner is less urgent than a waiter. |
| `EventModel.ServeLeavesNoneMet` | src/ipc.c:1046-1097 | After the scan no thread that still waits is satisfied, although later threads took flags away. |
| `EventModel.ServeSplits` | src/ipc.c:1046-1097 | Every waiter still waits unchanged or goes on with all, or some, of the flags it asked for. |
| `EventModel.ServeInOrder` | src/ipc.c:1046-1097 | The waiters are served in list order: those behind find what those before have left. |
| `EventModel.ServeOne` | src/ipc.c:1055-1092 | One waiter is served if and only if its condition is met, and nobody else is touched. |
| `EventModel.MetEffect` | src/ipc.c:1060-1097 | What the scan stores and clears for a thread is what the immediate path of rt_event_recv returns and clears. |
| `EventModel.ByFlag` | src/ipc.c:1060-1097 | Flag by flag: an AND receiver is served exactly when every flag it asks for is set, an OR receiver exactly when some is; it gets the flags it asks for that are set, and with CLEAR exactly those are cleared. |
| `EventModel.Event.Recv` | src/ipc.c:1124-1234 | Returns the flags and clears them exactly if the condition is met; else times out or waits; no waiter is left satisfied. |
| `EventModel.Event.Send` | src/ipc.c:1026-1108 | Serves the waiters in list order, each as if it called rt_event_recv just then; no waiter is left satisfied. |
| `EventModel.Event.Timeout` | src/thread.c:748-770 | A waiter that times out leaves the list and nothing else changes. |
| `EventModel.Event.Reset` | src/ipc.c:1246-1274 | All waiters are released and all flags cleared. |
| `Waiting.WakeTold` | src/ipc.c:1538-1549 | Making one thing available and waking one thread keeps: if somebody is suspended, at most as much is available as woken threads are yet to run. |
| `Waiting.RanTold` | src/ipc.c:1633-1691 | A woken thread that runs and takes one thing, or finds none, keeps that bound. |
| `MailboxModel.Mailbox.constructor` | src/ipc.c:1291-1319 | A new mailbox is empty and nobody waits. |
| `MailboxModel.Mailbox.Send` | src/ipc.c:1439-1558 | Appends to the queue if there is room and wakes one receiver; else refuses or blocks; no wake-up is lost in either direction. |
| `MailboxModel.Mailbox.Recv` | src/ipc.c:1587-1711 | Takes the first value and wakes one sender; else refuses or blocks; no wake-up is lost in either direction. |
| `MailboxModel.Mailbox.Timeout` | src/thread.c:748-770 | A thread that times out leaves its list; no wake-up is lost. |
| `MailboxModel.Mailbox.Reset` | src/ipc.c:1723-1755 | The mailbox is empty and everybody is released. |
| `Links.LinkedLast` | src/ipc.c:2004-2015 | Linking through the tail pointer appends to the list the head leads to. |
| `MessageQueueModel.Image.LinkLastGood` | src/ipc.c:2004-2018 | Appending keeps the partition of the pool, the head and tail pointers and the contents. |
| `MessageQueueModel.Image.LinkFirstGood` | src/ipc.c:2093-2102 | Putting in front keeps the partition, the head and tail pointers and the contents. |
| `MessageQueueModel.Image.UnlinkGood` | src/ipc.c:2235-2245 | Taking the first message keeps the partition, the head and tail pointers and the contents. |
| `MessageQueueModel.Image.ReturnGood` | src/ipc.c:2255-2257 | Returning a message keeps the partition and the free list. |
| `MessageQueueModel.MessageQueue.constructor` | src/ipc.c:1778-1825 | All messages of the pool are on the free list, last address first. |
| `MessageQueueModel.MessageQueue.Allocate` | src/ipc.c:1972-1996 | Refuses messages that are too big, fails exactly when no message is free, and else hands out the first free one. |
| `MessageQueueModel.MessageQueue.Write` | src/ipc.c:1997-2000 | Filling a held message touches nothing that is queued, free or held by others. |
| `MessageQueueModel.MessageQueue.WriteUrgent` | src/ipc.c:2087-2088 | Filling a held urgent message touches nothing else. |
| `MessageQueueModel.MessageQueue.Post` | src/ipc.c:2002-2031 | The message becomes the last one with its contents intact, and one receiver is woken. |
| `MessageQueueModel.MessageQueue.PostFirst` | src/ipc.c:2090-2115 | The urgent message becomes the first one with its contents intact, and one receiver is woken. |
| `MessageQueueModel.MessageQueue.Receive` | src/ipc.c:2158-2245 | Takes the first message, or refuses or blocks if there is none; no wake-up is lost. |
| `MessageQueueModel.MessageQueue.Read` | src/ipc.c:2250-2251 | The receiver gets the bytes that were sent, as far as both sizes go. |
| `MessageQueueModel.MessageQueue.Return` | src/ipc.c:2253-2259 | The message is free again and nothing else changes. |
| `MessageQueueModel.MessageQueue.Timeout` | src/thread.c:748-770 | A receiver that times out leaves the list; no wake-up is lost. |
| `MessageQueueModel.MessageQueue.Reset` | src/ipc.c:2286-2312 | Everything queued becomes free, what threads hold stays held, and everybody is released. |
| `LazyCache.GetHonest` | tools/kconfiglib.py:3585-3682 | A lazy read returns the value from scratch and keeps every cached value right, together with everything it was computed from. |
| `LazyCache.RankIrrelevant` | tools/kconfiglib.py:3585-3682 | As long as no evaluation comes back to itself, values from scratch do not depend on how that is shown. |
| `LazyCache.SurvivorsClear` | tools/kconfiglib.py:4001-4030 | What survives invalidation depends on nothing that was dropped, although invalidation stops at items without cached visibility. |
| `LazyCache.AssignHonest` | tools/kconfiglib.py:4001-4030 | After new user values and an invalidation that went far enough every cached value is the value from scratch. |
| `KconfigEdges.EdgesCover` | tools/kconfiglib.py:2827-2900 | If the choice of every symbol and every default of a choice has its edge, the dependency edges cover everything any evaluation of a symbol or choice may read, choice loops included. |
| `KconfigEdges.EdgesCoverIff` | tools/kconfiglib.py:2827-2900 | The edges cover everything any evaluation may read if and only if the choice of every symbol and every default of a choice has its edge. |
| `KconfigEdges.SelReadsPick` | tools/kconfiglib.py:4552-4557 | The selection of a choice reads the visibility of each of its defaults, wherever the default lies. |
| `KconfigStale.StaleSelection` | tools/kconfiglib.py:4552-4557 | A choice whose default lies outside of it: after one read and one assignment the cached selection is not the one from scratch. |
| `KconfigStale.StaleValue` | tools/kconfiglib.py:2869-2872 | A choice symbol whose properties do not mention the choice: after one read and one assignment its cached value is y although another symbol is selected. |
| `KconfigEdges.TreesFlagged` | tools/kconfiglib.py:4008-4026 | Every cached value is computed by way of the visibility, so the cached visibility tells whether anything is cached. |
| `KconfigMeaning.EvalMeaning` | tools/kconfiglib.py:4986-5012 | Short-circuit evaluation has the value of plain minimum, maximum and complement. |
| `KconfigMeaning.ModeMeaning` | tools/kconfiglib.py:4311-4329 | The mode of a choice in terms of its visibility, user value and MODULES. |
| `KconfigMeaning.SymbolVisMeaning` | tools/kconfiglib.py:5215-5243 | The visibility of a symbol in terms of its prompts, its choice and MODULES. |
| `KconfigMeaning.SymbolTriMeaning` | tools/kconfiglib.py:3585-3663 | The value of a symbol in terms of user value, defaults, implies, selects and promotion. |
| `KconfigMeaning.ChoiceSelMeaning` | tools/kconfiglib.py:4536-4565 | The selection of a choice: a visible user selection, else the first visible default, else the first visible symbol, and none outside y mode. |
| `KconfigMeaning.ValueMeaning` | tools/kconfiglib.py:3585-3682 | The values from scratch solve all these equations at once, for every graph without evaluation loops. |
| `KExpr.ExprLaws` | tools/kconfiglib.py:4986-5012 | AND is the lesser of its operands, OR is its dual under NOT, and NOT undoes itself. |
| `KExpr.RelationLaws` | tools/kconfiglib.py:5014-5040 | Equality and order are those of the numbers, and the other relations their complements and converses. |
| `KconfigLaws.UserDecides` | tools/kconfiglib.py:3613-3649 | A visible symbol with an assigned value has that value, capped by the visibility, or what selects it if that is more, with m made y where m is not possible. |
| `KconfigLaws.DefaultDecides` | tools/kconfiglib.py:3617-3649 | Otherwise it has the value of the first default whose condition is not n, capped by that condition, and n without one; or what implies it, where its dependencies hold, or selects it, if that is more. |
| `KconfigLaws.Forced` | tools/kconfiglib.py:3629-3649 | The value is never below what selects the symbol, nor, where nothing is assigned and the dependencies hold, below what implies it; it is never m where m is not possible. |
| `KconfigLaws.VisibleIff` | tools/kconfiglib.py:5215-5243 | A symbol is visible if and only if the condition of some prompt is not n, and visible as y if and only if some condition is y or m is not possible. |
| `KconfigLaws.ModeLaws` | tools/kconfiglib.py:4311-4329 | When the mode of a choice is n, when m is impossible, and what it is otherwise. |
| `KconfigLaws.MemberVisible` | tools/kconfiglib.py:5215-5243 | A visible symbol of a choice in y mode is visible as y. |
| `KconfigLaws.SelectionLaws` | tools/kconfiglib.py:4536-4565 | No selection outside y mode; a visible assigned selection is the selection; otherwise some visible symbol is, if there is one. |
| `KconfigLaws.SelectionDefault` | tools/kconfiglib.py:4552-4565 | Without an assigned one the first default that is visible and whose condition holds is selected, else the first visible symbol. |
| `KconfigLaws.MembersExclusive` | tools/kconfiglib.py:3651-3659 | In y mode exactly the selected symbol is y and all others are n; outside it no symbol is y, and m are exactly those visible as m with a value assigned. |
| `KconfigValues.PromptlessUnread` | tools/kconfiglib.py:4032-4052 | The user value of a symbol without a prompt is not read by any evaluation, so skipping invalidation is right. |
| `KconfigValues.AssignedHonest` | tools/kconfiglib.py:3713-3805 | If the edges cover every read, an assignment to one item followed by its invalidation leaves every cached value right. |
| `KconfigValues.Kconfig.constructor` | tools/kconfiglib.py:3995-3999 | For every graph that evaluates without loops, whatever the user gives: at first nothing is cached and no user value is set. |
| `KconfigModules.EntangledLoopFree` | tools/kconfiglib.py:3585-3663 | A MODULES that depends on a tristate symbol evaluates without loops although the two could read each other. |
| `KconfigValues.Kconfig.Read` | tools/kconfiglib.py:3585-3682 | Returns the value from scratch and caches exactly what was computed on the way. |
| `KconfigValues.Kconfig.RecInvalidate` | tools/kconfiglib.py:4001-4030 | Ends, because fewer items have a cached visibility at every recursive call, leaves no cached dependent of anything it dropped, and drops nothing that does not depend on the item. |
| `KconfigValues.Kconfig.SetValue` | tools/kconfiglib.py:3713-3796 | Accepts exactly the values of the type (and the present one outside choices); an accepted value is the one read back as the assigned value, and y in a choice makes the item the assigned selection; if every read has its edge every cached value stays right; what does not depend on the item stays cached. |
| `KconfigValues.Kconfig.SeenFields` | tools/kconfiglib.py:3713-3796 | The assigned value and the assigned selection that evaluation sees are those stored in the item. |
| `KconfigLaws.SetThenRead` | tools/kconfiglib.py:3613-3649 | The value read after an assignment to a visible symbol is the assigned one, capped by the visibility, or what selects it if that is more, with m made y where m is not possible. |
| `KconfigLaws.SelectThenRead` | tools/kconfiglib.py:3651-3659 | After y is assigned to a visible symbol of a choice in y mode, that symbol reads y and every other one n. |
| `KconfigLaws.AcceptedValues` | tools/kconfiglib.py:3713-3760 | n and y are accepted for a bool, n, m and y for a tristate, nothing for a constant. |
| `KconfigValues.Kconfig.UnsetValue` | tools/kconfiglib.py:3798-3805 | The user value is gone; if every read has its edge every cached value stays right; what does not depend on the item stays cached. |
| `KconfigValues.Kconfig.SetMode` | tools/kconfiglib.py:4360-4400 | Accepts exactly the values of the type and the present one; if every read has its edge every cached value stays right; what does not depend on the choice stays cached. |
| `KconfigValues.Kconfig.UnsetMode` | tools/kconfiglib.py:4402-4409 | Mode and selection are gone; if every read has its edge every cached value stays right; what does not depend on the choice stays cached. |
| `KconfigSyntax.RoundTrip` | tools/kconfiglib.py:5059-5100 | Printing an expression and parsing the tokens consumes all of them and gives its right-nested form. |
| `KconfigSyntax.ReadBack` | tools/kconfiglib.py:2737-2821 | What is read back has the same value under every assignment, and is the same tree if and only if the chains are nested to the right. |
| `KconfigSyntax.NormValue` | tools/kconfiglib.py:2765-2787 | Nesting chains to the right keeps the value under every assignment. |
| `KconfigSyntax.MakeValue` | tools/kconfiglib.py:2240-2266 | The simplifications of `_make_and` and `_make_or` keep the value under every assignment, and give one of the operands if and only if one of them is constant. |
| `KconfigSyntax.Parser.Expr` | tools/kconfiglib.py:2737-2777 | The method on the token list parses, advances and fails exactly as the grammar function does. |
| `KconfigSyntax.Parser.AndExpr` | tools/kconfiglib.py:2779-2787 | The same for `&&` chains. |
| `KconfigSyntax.Parser.Factor` | tools/kconfiglib.py:2789-2821 | The same for symbols, relations, negations and parentheses. |
| `RomImage.UnpackPack` | tools/mkromfs.py:60-61 | Unpacking a packed 32-bit field gives it back. |
| `RomReader.ForestBack` | tools/mkromfs.py:162-211 | A table and its payload, wherever they lie, read back as the children they were written for. |
| `RomReader.ImageBack` | tools/mkromfs.py:230-241 | For every tree with NUL-free names whose image can be packed, following the fields from the base gives the tree back. |
| `RomImage.SmallPacks` | tools/mkromfs.py:203-207 | Every image that ends below 2^32 can be packed. |
| `RomReader.TreeAligned` | tools/mkromfs.py:31-36 | With a 4-aligned start every name and every table is 4-aligned. |
| `RomWriter.BinData` | tools/mkromfs.py:162-211 | Fails exactly if an address or a size does not fit into 32 bits, and otherwise gives the bytes of the layout. |
| `RomWriter.FolderData` | tools/mkromfs.py:162-211 | The loop with its running address writes the table and the payload of the layout, or fails where packing does. |
| `RomWriter.GetBinData` | tools/mkromfs.py:230-241 | The whole image: root entry, root name, root folder; fails exactly if a field does not fit. |

## Left out

- MemHeap.MemHeap.Realloc: requires that the test for room in the successor is right; `MemHeap.WrongPlace` says where the header goes otherwise, and the heap after that is not modelled.
- MemHeap.MemHeap.Resize: the same.
- MemHeap.MemHeap.constructor: requires a pool that holds its two headers; with less the sizes of the source underflow.
- SmallHeap.SmallHeap.Malloc: requires that the search ends (`SmallHeapModel.SearchEndsIff`); the source loops otherwise.
- SmallHeap.SmallHeap.Free: an address inside the heap must be that of a live block.
- SchedulerModel.Scheduler.Startup: stops before the rt_schedule that follows, which is a step of its own; the same holds for Exit and Resume.
- TimerSystem.TimerList.Check: callbacks do not start or stop timers.
- Mailbox and message queue timeouts: whether some of the timeout is left is a parameter; the tick arithmetic that computes it is not modelled.
- The place of a suspended thread in the list of an event, a mailbox or a message queue is arbitrary, which covers both IPC flags; only the mutex models the priority order.
- Several mutexes held by one thread, changes of a waiting thread's priority, and, apart from the hand-over, mutexes with RT_IPC_FLAG_FIFO.
- Signals, the -RT_EINTR retry, deletion of IPC objects and semaphores.
- Blocking memory pools (src/mempool.c).
- SMP variants of the scheduler and of the threads.
- Soft timers, rt_tick_set, rt_timer_control queries and timer objects.
- Context switching, stacks, hooks, debug output, object registries, devices and console formatting.
- The heap semaphore: each allocator call is one step.
- Writes of the slab allocator to its page map are kept apart from the other bytes of the heap; its `used_mem` statistics are not modelled.
- Freeing what is not live: callers pass a live address, RT_NULL or, to the small heap, an address outside.
- Magic numbers and memory tracing in block headers.
- Kconfig string, int and hex symbols, ranges, `assignable`, warnings, file reading, tokenising, macros, environment variables, `m && MODULES` rewriting and loop detection; a graph comes with ranks that show that no evaluation comes back to itself, whatever the user gives.
- KconfigMeaning.EvalMeaning: relations compare symbols as numbers; the comparison of strings is not modelled.
- The C output, the directory walk and the sorting of tools/mkromfs.py.
