# RT-Thread 4.0.3 kernel: a verified model

A Dafny model of the kernel under `libraries/rttherad_libraries` and of the timeout codec of the
DL1A distance sensor, with proofs of what they promise. `dafny verify dfyconfig.toml` checks the
whole project.

Operations that change state step by step are classes whose methods follow the code statement by
statement and whose `ensures` equate the new state with a specification. The properties are proved
about the specifications, for every input, every run and every interleaving. Where threads,
interrupts and timers interleave, one step is one interrupt-disabled section (or one byte of a copy
that runs unlocked); which thread takes the next step is left open.

- **Lists** (`Lists`, `RtList`): the intrusive doubly linked list and its view as a sequence.
- **Memory heap** (`Ring`, `HeapLayout`, `HeapImage`, `HeapClosing`, `HeapClients`, `HeapResize`,
  `MemHeap`, `MemHeaps`): the allocator that is compiled in, over an array of RAM words. Block headers are words
  of that array, so the two circular lists run through the same memory as the payloads. The heap is
  seen three ways: as words, as a layout of segments, and as the payloads its callers hold. Several
  heaps together serve `rt_malloc` and `rt_realloc`.
- **Timers** (`TimerRows`, `TimerLinks`, `TimerSpec`, `Timer`): the skip list for any number of
  levels, with 32-bit ticks that wrap. Deadlines that do not wrap are kept beside the stored ones.
  What a timeout function does is a parameter: a sequence of calls for each firing.
- **Scheduler and threads** (`Bits`, `Threads`, `Scheduler`, `TimeSlices`, `Dispatch`, `ThreadOps`):
  ready lists, the priority bitmap with `__rt_ffs`, thread states, wait lists, time slices, the
  scheduler lock.
- **Mutexes** (`Mutexes`, `MutualExclusion`, `MutexFifo`, `MutexOps`) and **semaphores** (`Semaphores`, `SemaphoreOps`),
  on top of the scheduler, any number of each.
- **Mailboxes** (`Mailboxes`, `MailboxRuns`, `MailboxOps`), **message queues** (`MqSlots`, `MsgQueues`,
  `MsgQueueRuns`, `MsgQueueOps`) and **memory pools** (`MemPools`, `MemPoolRuns`, `MemPoolOps`) share the
  wait-and-retry protocol of `Gates`. Each is proved twice: as a protocol of its own, and on the
  scheduler, where `GateWaits` ties the waiting and woken threads of the protocol to wait lists, thread
  states, error codes and timers, so that no wakeup is lost whatever else threads and interrupts do.
- **Events** (`Events`, `EventRuns`, `EventOps`), on the scheduler as well.
- **Small-memory heap** (`SmallBlocks`, `SmallMem`) and **slab heap** (`SlabPages`, `SlabZones`,
  `SlabHeap`), the latter down to the pages in which its blocks lie.
- **DL1A timeout codec** (`Dl1a`).

## Where the code does less than one might expect

Each of these is proved, with the exact condition and, where there is a failing input, with one.

- `rt_memheap_alloc` compares a request with the free total by a strict `<`, so it refuses a request
  for all free words although a block could hold it (`HeapLayout.StrictTest`,
  `MemHeap.StrictTestRefuses`).
- Sizes above 2^32 - 4 round to zero. `rt_memheap_alloc` then hands out a smallest block
  (`MemHeap.RequestCovers`, `MemHeap.AllocWraps`), and so does `rt_malloc` in `mem.c`, whose
  `rt_realloc` frees the block instead (`SmallMem.AlignCovers`, `SmallMem.SizesWrap`).
- The in-place growth test of `rt_memheap_realloc` wraps for requests within a smallest payload of
  2^32, and then passes whatever there is room for (`HeapResize.GrowFitsExact`,
  `MemHeap.GrowWraps`).
- A periodic timer whose own timeout function makes it one-shot stays marked active while it is on no
  list (`TimerSpec.FiredTruthful`, `TimerSpec.MarkedButOff`).
- A periodic timer with the period zero is due again at once, so that a check does not end
  (`TimerSpec.DueAgain`, `TimerSpec.RoundAndRound`).
- `rt_mp_init` of a pool without room for a block writes in front of the pool (`MemPoolOps.LastLink`,
  `MemPoolOps.InFrontOfThePool`).
- With the FIFO flag a mutex can be handed to a thread less urgent than one that goes on waiting
  (`Mutexes.HandOffInherits`; `MutexFifo.FifoInversion` is a run from rest that ends so).
- Changing the priority of a waiting thread does not move it in its wait list
  (`Scheduler.PriorityWhileWaiting`, `Scheduler.PriorityInversion`).
- `rt_thread_resume` works in two sections. The second is right exactly if it finds the thread
  suspended, on no wait list and without a timer. If the thread was resumed between them, it is put
  on its ready list twice, or, if it waits again, on two lists (`Scheduler.ResumedInTheGap`,
  `Scheduler.ResumedTwice`). The calls in `ipc.c` disable interrupts throughout.
- The search of `rt_malloc` in `mem.c` leaves out a last block that the request would fill exactly
  (`SmallMem.SearchMisses`, `SmallMem.RefusesAll`), and in a heap with less than twelve bytes between
  its headers it never ends (`SmallMem.SearchNeverEnds`).
- In `plug_holes` the two adjustments of the lowest free block never apply (`SmallMem.JoinsAhead`,
  `SmallMem.JoinsBehind`), so the model's method asserts this instead of repeating them.
- `rt_mutex_release` without waiters gives the running thread its own priority back and does not
  schedule, so "no ready thread outranks the current one" is what `rt_schedule` establishes, not an
  invariant (`Mutexes.ReleaseRunsOn`, `Mutexes.ReleaseOutranked`, `Scheduler.ScheduledRuns`).

## Model

| member | source | states |
|---|---|---|
| MemHeap.MemHeap.constructor | libraries/rttherad_libraries/src/memheap.c:50-121 | the initialised pool is one free block and a used tail, all words but two headers free, nothing handed out, memory elsewhere untouched |
| MemHeap.MemHeap.FindFit | libraries/rttherad_libraries/src/memheap.c:170-182 | the search stops at the first block of the free list that is large enough, and reports the size it saw there |
| MemHeap.MemHeap.TakeSplit | libraries/rttherad_libraries/src/memheap.c:187-236 | taking the front of a block leaves well-formed lists with the rest first among the free blocks, the layout after an allocation, and touches only headers |
| MemHeap.MemHeap.TakeWhole | libraries/rttherad_libraries/src/memheap.c:237-258 | taking a whole block does the same when the rest could not stand alone |
| MemHeap.MemHeap.Alloc | libraries/rttherad_libraries/src/memheap.c:138-281 | returns the first fit of the free list exactly if the rounded request is below the free total and some block fits; the payload was nobody's and is longer than the rounded request by less than a header and a smallest payload; every other payload keeps place, size and contents; free total and high-water mark are exact, and a rest that stands alone is first on the free list |
| MemHeap.RequestCovers | libraries/rttherad_libraries/src/memheap.c:147-150 | the rounded request covers the size asked for exactly up to 2^32 - 4; above, it is the smallest payload |
| MemHeap.AllocWraps | libraries/rttherad_libraries/src/memheap.c:147-150 | asked for 2^32 - 1 bytes, a fresh heap hands out a block of three words |
| MemHeap.MemHeap.JoinLeft | libraries/rttherad_libraries/src/memheap.c:540-557 | a freed block joins the block before it exactly if that is free, and one header becomes available |
| MemHeap.MemHeap.JoinRight | libraries/rttherad_libraries/src/memheap.c:559-578 | a freed block joins the block behind it exactly if that is free, which leaves both lists |
| MemHeap.MemHeap.Release | libraries/rttherad_libraries/src/memheap.c:535-591 | after a block is put back both lists are again those of a coalesced heap with the layout after a free |
| MemHeap.MemHeap.Free | libraries/rttherad_libraries/src/memheap.c:495-595 | the payload and nothing else stops being handed out; no two free blocks are adjacent; the free total grows by the payload and a header per neighbour joined; unless it joins the block before it, the freed block is the first that a search looks at; NULL is ignored |
| MemHeap.MemHeap.Grow | libraries/rttherad_libraries/src/memheap.c:352-401 | growing in place moves the neighbour's header, takes the old one off both lists and keeps every payload word outside the moved header |
| MemHeap.MemHeap.TryGrow | libraries/rttherad_libraries/src/memheap.c:333-403 | the block grows in place exactly if its neighbour is free and leaves a smallest payload over; otherwise nothing changes; the high-water mark is exact |
| MemHeap.MemHeap.Shrink | libraries/rttherad_libraries/src/memheap.c:432-482 | the cut-off end becomes a free block, joined with a free block behind it |
| MemHeap.MemHeap.ShrinkPayload | libraries/rttherad_libraries/src/memheap.c:419-491 | the payload has exactly the new size and its words up to it, all other payloads theirs; the words cut off become available, less a header unless the block behind is free |
| MemHeap.MemHeap.MoveTo | libraries/rttherad_libraries/src/memheap.c:408-416 | a payload that cannot grow in place moves to the first block that fits, with all its words, and the old block is freed; it fails exactly if allocation would; the high-water mark is that of the moment when both blocks were taken |
| MemHeap.MemHeap.CopyPayload | libraries/rttherad_libraries/src/memheap.c:412 | copying changes only the payload copied to |
| MemHeap.MemHeap.Realloc | libraries/rttherad_libraries/src/memheap.c:284-492 | size zero frees, NULL allocates; a payload stays where it is exactly if it has the room or can grow, and then has exactly the size asked for unless too little would come off, with the words gained or cut off accounted for; any other moves to the first block that fits; its first min(old, new) words go along, no other payload changes, and failure, exactly if neither growing nor allocating is possible, leaves everything as it was |
| MemHeaps.Heaps.Malloc | libraries/rttherad_libraries/src/memheap.c:610-647 | over several heaps: the first with room hands out the payload, no other changes; it fails exactly if none has room |
| MemHeaps.Heaps.Realloc | libraries/rttherad_libraries/src/memheap.c:656-695 | a payload stays in place exactly if it has the room or can grow, of exactly the size that it should be; else it moves in its heap if that has room, and else to the first other with room; its first min(old, new) words go along, no other payload of any heap changes, and failure, exactly if no heap can do it, changes nothing |
| MemHeaps.Heaps.MoveOn | libraries/rttherad_libraries/src/memheap.c:673-692 | the move to the first heap with room |
| MemHeaps.MovedOn | libraries/rttherad_libraries/src/memheap.c:676-691 | handing out in one heap, copying across and freeing in the other carry the payload and keep all others |
| HeapLayout.AllocKeeps | libraries/rttherad_libraries/src/memheap.c:187-258 | allocation conserves all words, keeps free segments apart and takes exactly the payload, and a header if it splits, out of the free words |
| HeapLayout.FreeKeeps | libraries/rttherad_libraries/src/memheap.c:535-591 | freeing conserves all words, leaves no two free segments adjacent and gives back the payload and a header per neighbour joined |
| HeapLayout.ResizeKeeps | libraries/rttherad_libraries/src/memheap.c:350-485 | moving the border between a used segment and what is behind it conserves all words and keeps free segments apart |
| HeapLayout.RunKeeps | libraries/rttherad_libraries/src/memheap.c:138-595 | over any run of alloc, free and in-place resize the words of the pool are conserved, free segments are never adjacent, and no segment becomes smaller than a smallest payload |
| HeapLayout.StepRoomy | libraries/rttherad_libraries/src/memheap.c:187-489 | an operation that leaves a smallest payload on either side of a cut leaves no segment smaller than that |
| HeapLayout.RunGivesBack | libraries/rttherad_libraries/src/memheap.c:495-595 | a run that has given everything back ends in one free segment of all the words |
| HeapLayout.StrictTest | libraries/rttherad_libraries/src/memheap.c:155 | a free block that could hold the request is refused exactly if the request equals the whole free total |
| MemHeap.StrictTestRefuses | libraries/rttherad_libraries/src/memheap.c:155 | an initialised heap refuses a request for all of its free words, although its free list has a block with that room |
| HeapResize.GrowFitsExact | libraries/rttherad_libraries/src/memheap.c:350 | for every free block behind, the 32-bit test for growing in place means "a smallest payload is left over" exactly if adding the smallest payload to the request does not wrap; if it does, the test passes |
| MemHeap.GrowWraps | libraries/rttherad_libraries/src/memheap.c:350 | a heap in which a payload of three words, with a free block of fifteen behind it, passes the test for 2^32 - 4 bytes |
| HeapClients.StaysAmple | libraries/rttherad_libraries/src/memheap.c:149-150 | every payload handed out stays at least as long as the smallest |
| HeapResize.AllFreeIsWhole | libraries/rttherad_libraries/src/memheap.c:50-65 | a heap with nothing handed out is one free block and the tail again, whatever happened before |
| HeapResize.PoolWords | libraries/rttherad_libraries/src/memheap.c:62-65 | the pool is its payloads and one header per block, the tail included |
| HeapResize.FreshHeap | libraries/rttherad_libraries/src/memheap.c:67-111 | the words that initialisation writes form a well-formed heap |
| HeapResize.PayloadWritten | libraries/rttherad_libraries/src/memheap.c:138-281 | whatever a caller writes into its payload, the heap stays well formed and all other payloads stay as they were |
| HeapClosing.SplitDone | libraries/rttherad_libraries/src/memheap.c:203-225 | relinking both lists around a split gives a well-formed heap with the layout after an allocation |
| HeapClosing.FreeDone | libraries/rttherad_libraries/src/memheap.c:540-586 | relinking both lists around a freed block and its free neighbours gives a well-formed heap with the layout after a free |
| HeapClients.AllocDone | libraries/rttherad_libraries/src/memheap.c:187-258 | after an allocation exactly the new payload is handed out in addition, and the free words shrink by its cost |
| HeapClients.FreedUndisturbed | libraries/rttherad_libraries/src/memheap.c:535-591 | after a free exactly that payload is gone and every other keeps its place and words |
| HeapResize.ResizeDone | libraries/rttherad_libraries/src/memheap.c:350-402 | after the neighbour's header has moved the heap is well formed with the layout after a resize |
| HeapResize.ResizedOthers | libraries/rttherad_libraries/src/memheap.c:350-402 | a resize in place disturbs no other payload |
| Ring.LinkAfterRing | libraries/rttherad_libraries/src/memheap.c:209-225 | linking an item behind an item of a circular list through memory words gives the list with it there |
| Ring.UnlinkRing | libraries/rttherad_libraries/src/memheap.c:215-217 | unlinking an item gives the circular list without it |
| Ring.LinkAfterFrame | libraries/rttherad_libraries/src/memheap.c:209-225 | linking into one list leaves every list through other words alone |
| Ring.UnlinkFrame | libraries/rttherad_libraries/src/memheap.c:215-217 | unlinking from one list leaves every list through other words alone |
| RtList.InsertAfterRing | libraries/rttherad_libraries/include/rtservice.h:58-65 | inserting behind entry i of a list gives the list with the node there |
| RtList.InsertBeforeIs | libraries/rttherad_libraries/include/rtservice.h:73-80 | inserting before a node is inserting behind its predecessor; before the head it is appending |
| RtList.RemoveRing | libraries/rttherad_libraries/include/rtservice.h:86-92 | removing an entry gives the list without it, and the node alone |
| RtList.InsertAfterFrame | libraries/rttherad_libraries/include/rtservice.h:58-65 | inserting leaves every other list alone |
| RtList.RemoveFrame | libraries/rttherad_libraries/include/rtservice.h:86-92 | removing leaves every other list alone |
| RtList.EmptyRing | libraries/rttherad_libraries/include/rtservice.h:98-101 | a list is empty exactly if its head points to itself |
| RtList.Len | libraries/rttherad_libraries/include/rtservice.h:107-118 | the count is the number of entries |
| TimerRows.WrapOrder | libraries/rttherad_libraries/src/timer.c:341-381 | within the half-window, comparing wrapped ticks is comparing deadlines |
| TimerRows.PlaceMeans | libraries/rttherad_libraries/src/timer.c:357-385 | the scan passes the timers due no later and stops before the first due later |
| TimerRows.InsSorted | libraries/rttherad_libraries/src/timer.c:357-395 | stable insertion keeps a row sorted by deadline |
| TimerRows.SubIns | libraries/rttherad_libraries/src/timer.c:394-406 | inserting into a row and the row below keeps the one part of the other |
| TimerRows.SubDel | libraries/rttherad_libraries/src/timer.c:136-144 | removing from all rows keeps each part of the row below |
| TimerRows.InsRowsOk | libraries/rttherad_libraries/src/timer.c:394-406 | for any number of levels, joining the rows from some level down keeps all rows sorted and nested |
| TimerRows.DelRowsOk | libraries/rttherad_libraries/src/timer.c:136-144 | leaving all rows keeps them sorted and nested |
| TimerRows.DescendAt | libraries/rttherad_libraries/src/timer.c:383-384 | where the scan of one row stopped, the scan of the row below may start |
| TimerLinks.RowRemove | libraries/rttherad_libraries/src/timer.c:136-144 | rt_list_remove on a timer's node takes it off whichever list of the row holds it |
| TimerLinks.RowJoin | libraries/rttherad_libraries/src/timer.c:394-400 | inserting behind the node where the scan stopped is stable insertion into the row |
| TimerLinks.RowHold | libraries/rttherad_libraries/src/timer.c:562-563 | the node of a timer on no list goes on the list of the running timer |
| TimerLinks.RowStep | libraries/rttherad_libraries/src/timer.c:360-367 | following the next link steps along the row, and the scan ends at the last entry |
| Timer.Height | libraries/rttherad_libraries/src/timer.c:391-406 | the number of rows above the last that a timer joins |
| Timer.HeightMeans | libraries/rttherad_libraries/src/timer.c:391-406 | the counter is a power of the group size, one factor for each row joined above the last, times a rest that no further group of zeros ends, unless there are no more rows |
| Timer.TimerList.constructor | libraries/rttherad_libraries/src/timer.c:86-112 | initialised timers are on no list and marked inactive |
| Timer.TimerList.NextTimeout | libraries/rttherad_libraries/src/timer.c:114-134 | the next timeout is the earliest deadline, or the largest tick |
| Timer.TimerList.Unlink | libraries/rttherad_libraries/src/timer.c:136-144 | a timer leaves every row, and the rows stay sorted, nested and linked |
| Timer.TimerList.Scan | libraries/rttherad_libraries/src/timer.c:360-382 | the scan of one row ends at the last timer due no later, as a plain scan from the head would |
| Timer.TimerList.Descend | libraries/rttherad_libraries/src/timer.c:357-385 | the multi-level descent stops in every row, so also in the last, where a plain linear scan of that row stops |
| Timer.TimerList.JoinRows | libraries/rttherad_libraries/src/timer.c:391-406 | the timer joins the last row and one more for each zero group of the counter, at its place in each |
| Timer.TimerList.Start | libraries/rttherad_libraries/src/timer.c:315-428 | starting a timer gives the deadline now + init_tick, the rows with it taken out and inserted anew, and the flag |
| Timer.TimerList.Stop | libraries/rttherad_libraries/src/timer.c:438-462 | stopping an active timer takes it off all lists; an inactive one is refused and nothing changes |
| Timer.TimerList.Control | libraries/rttherad_libraries/src/timer.c:474-520 | settings change the init_tick or the periodic flag only |
| Timer.TimerList.Tick | libraries/rttherad_libraries/src/clock.c:62-71 | a tick advances the time by one, also across the 32-bit wrap |
| Timer.TimerList.Fire | libraries/rttherad_libraries/src/timer.c:552-586 | one pass of the check does exactly what Fired says, on the linked rows |
| Timer.TimerList.Check | libraries/rttherad_libraries/src/timer.c:529-594 | the check terminates and ends in the state, and fires the timers, of the specification; no listed timer is then due |
| TimerSpec.Started | libraries/rttherad_libraries/src/timer.c:315-428 | a started timer is listed, and the state stays sound: sorted, inside the half-window, listed timers active |
| TimerSpec.StartedOrder | libraries/rttherad_libraries/src/timer.c:369-381 | a started timer comes behind all timers due no later, so equal deadlines keep their order, and before all others |
| TimerSpec.Stopped | libraries/rttherad_libraries/src/timer.c:438-463 | a stopped timer is listed nowhere |
| TimerSpec.Obeyed | libraries/rttherad_libraries/src/timer.c:315-520 | any call that a timeout function makes keeps the timers sound |
| TimerSpec.ObeyedAllExpired | libraries/rttherad_libraries/src/timer.c:564-565 | while timeout functions run, timers leave the due ones only by being started or stopped, and none joins |
| TimerSpec.FiredExpired | libraries/rttherad_libraries/src/timer.c:552-586 | a firing takes the first due timer off, with those its function starts or stops; no other leaves and none joins |
| TimerSpec.RearmedOnce | libraries/rttherad_libraries/src/timer.c:573-585 | a timer that its own function started or stopped is not started again; any other is listed again exactly if periodic before and after, due one period from now |
| TimerSpec.FiredTruthful | libraries/rttherad_libraries/src/timer.c:556-585 | firing keeps "active flag equals listed" exactly unless a periodic timer's own function makes it one-shot and neither starts nor stops it |
| TimerSpec.MarkedButOff | libraries/rttherad_libraries/src/timer.c:556-585 | a periodic timer due at tick 5 whose function makes it one-shot ends active and unlisted |
| TimerSpec.DueAgain | libraries/rttherad_libraries/src/timer.c:578-585 | a periodic timer that its function leaves alone is due again at once exactly if its period is zero |
| TimerSpec.ComesBack | libraries/rttherad_libraries/src/timer.c:543-585 | such a timer alone brings the check back to the state it was in |
| TimerSpec.RoundAndRound | libraries/rttherad_libraries/src/timer.c:543-585 | a state with such a timer |
| TimerSpec.CheckedDone | libraries/rttherad_libraries/src/timer.c:529-594 | after a check every listed timer is due later |
| TimerSpec.CheckedOrder | libraries/rttherad_libraries/src/timer.c:529-594 | the timers that fire were due, fire in list order and at most once: none early, all by deadline |
| TimerSpec.CheckedAll | libraries/rttherad_libraries/src/timer.c:529-594 | every due timer fires unless a timeout function called before started or stopped it |
| TimerSpec.FiresOnTime | libraries/rttherad_libraries/src/timer.c:529-594 | with no timer overdue before a tick, a timer that fires in it is due at that very tick |
| Bits.TableLow | libraries/rttherad_libraries/src/kservice.c:1294-1312 | each entry of the bitmap table is the position of the lowest set bit |
| Bits.Ffs | libraries/rttherad_libraries/src/kservice.c:1324-1338 | zero for zero, else one more than the position of the lowest set bit |
| Bits.OrBits | libraries/rttherad_libraries/src/scheduler.c:728 | or-ing a mask in sets exactly its bits |
| Bits.AndNotBits | libraries/rttherad_libraries/src/scheduler.c:820 | masking out clears exactly the bits of the mask |
| Threads.OffOk | libraries/rttherad_libraries/src/scheduler.c:796-826 | taking a thread off its list keeps lists, bitmap and thread states in agreement |
| Threads.OnOk | libraries/rttherad_libraries/src/scheduler.c:699-733 | putting a thread on the ready list of its priority keeps them in agreement |
| Threads.GroupLoses | libraries/rttherad_libraries/src/scheduler.c:809-822 | clearing the bit of an emptied list keeps "bit p set exactly if list p has threads" |
| Threads.GroupGains | libraries/rttherad_libraries/src/scheduler.c:717-728 | setting the bit of a list that gained a thread keeps it |
| Scheduler.FirstReady | libraries/rttherad_libraries/src/scheduler.c:153-175 | what __rt_ffs finds is the most urgent priority with a ready thread, and its list is not empty |
| Scheduler.Switched | libraries/rttherad_libraries/src/scheduler.c:447-462 | a switch changes the two threads involved and nobody else |
| Scheduler.Scheduled | libraries/rttherad_libraries/src/scheduler.c:409-529 | rt_schedule keeps lists, bitmap and states in agreement and changes only which active thread runs; while the lock is held it does nothing at all |
| Scheduler.ScheduledRuns | libraries/rttherad_libraries/src/scheduler.c:409-529 | after rt_schedule with the lock open the current thread runs and no ready thread outranks it; a running thread is replaced exactly if outranked, or equalled after a yield, and then by the first of its list; its wish to yield is then done with |
| Scheduler.IdleThere | libraries/rttherad_libraries/src/scheduler.c:423 | an idle thread that is never suspended always leaves something to run |
| Scheduler.Suspended | libraries/rttherad_libraries/src/thread.c:766-806 | suspending takes a ready or running thread off its list and stops its timer; any other is refused |
| Scheduler.Resumed | libraries/rttherad_libraries/src/thread.c:815-848 | resuming with interrupts disabled, as all callers in ipc.c do, takes a suspended thread off its wait list, stops its timer and makes it ready, or running if it is current; any other is refused |
| Scheduler.Detached | libraries/rttherad_libraries/src/thread.c:833-842 | the first section of a resume: the thread leaves its wait list and its timer is off |
| Scheduler.ResumedInTheGap | libraries/rttherad_libraries/src/thread.c:841-845 | the insertion is right exactly if it finds the thread suspended, on no wait list and without a timer; wrong if the thread was resumed in the gap and is ready, or ran and waits again |
| Scheduler.ResumedTwice | libraries/rttherad_libraries/src/thread.c:833-845 | a thread that waits, detached and then resumed before the insertion: it would be on its ready list twice; and one that waits again: it would be on two lists |
| Scheduler.TimedOut | libraries/rttherad_libraries/src/thread.c:858-882 | a timeout finds its thread suspended, reports -RT_ETIMEOUT, takes it off its wait list and makes it ready |
| Scheduler.Reprioritized | libraries/rttherad_libraries/src/thread.c:673-714 | a new priority moves a ready thread to the list of that priority and changes nobody else |
| Scheduler.StartedUp | libraries/rttherad_libraries/src/thread.c:315-345 | a started thread is ready with its initial priority |
| Scheduler.Exited | libraries/rttherad_libraries/src/thread.c:105-141 | an exited thread is closed, off every list and without a timer |
| Scheduler.Waiting | libraries/rttherad_libraries/src/ipc.c:83-129 | a waiting thread is suspended and stands in the wait list where first come or priority puts it |
| Scheduler.Blocked | libraries/rttherad_libraries/src/ipc.c:371-397 | blocking clears the error of the thread, puts it on the wait list where first come or priority puts it, and arms its timer exactly if the time is positive; no other list changes |
| Scheduler.BlockedAt | libraries/rttherad_libraries/src/mempool.c:319-352 | the same at a given place of the wait list |
| Scheduler.FirstResumed | libraries/rttherad_libraries/src/ipc.c:140-154 | the first waiter leaves the list and is ready; the others keep their order |
| Scheduler.WaitingByPrio | libraries/rttherad_libraries/src/ipc.c:96-121 | waiting by priority keeps the wait list ordered |
| Scheduler.WaitPlaceMeans | libraries/rttherad_libraries/src/ipc.c:102-121 | a thread waits behind those as urgent and before those less urgent |
| Scheduler.PriorityWhileWaiting | libraries/rttherad_libraries/src/thread.c:698-710 | a priority change while waiting keeps the wait list ordered exactly if it fits between the neighbours |
| Scheduler.PriorityInversion | libraries/rttherad_libraries/src/thread.c:698-710 | a state in which two threads wait by priority, out of order once the first is made less urgent |
| Scheduler.TurnRotates | libraries/rttherad_libraries/src/scheduler.c:430-462 | a yield or the last tick of a slice passes the processor to the next thread of the same priority; any other tick changes no turn |
| Scheduler.RoundRobin | libraries/rttherad_libraries/src/clock.c:73-85 | over any run of yields and ticks the threads of a priority take turns in a fixed cyclic order |
| Scheduler.RoundRobinFair | libraries/rttherad_libraries/src/thread.c:508-521 | within n turns of n threads each runs exactly once, and the order is then as before |
| Scheduler.IdleStaysActive | libraries/rttherad_libraries/src/scheduler.c:423 | no section makes the idle thread inactive |
| Scheduler.NextThread | libraries/rttherad_libraries/src/scheduler.c:409-529 | what each section makes of each thread: which fields change, for whom |
| Scheduler.RunOk | libraries/rttherad_libraries/src/scheduler.c:409-529 | in every state of every run lists, bitmap and states agree, and rt_schedule with the lock open leaves no ready thread outranking the current one |
| TimeSlices.SliceLasts | libraries/rttherad_libraries/src/clock.c:73-85 | with n ticks left, n ticks in a row end exactly one turn, at the n-th and none before; the thread that gave way has a full slice and nobody else's is touched |
| TimeSlices.RoundInTicks | libraries/rttherad_libraries/src/clock.c:73-85 | the first i threads of the circle have had their turn, one each and in order, after exactly the ticks that they had left together |
| TimeSlices.FullRound | libraries/rttherad_libraries/src/clock.c:73-85 | a full round takes what the running thread has left and the slices of the others; each has run once, the order is as before and every slice is full again |
| TimeSlices.LockedStep | libraries/rttherad_libraries/src/scheduler.c:419 | only entering and leaving a critical section counts the lock, and no step switches while it is held before and after |
| TimeSlices.NoSwitchWhileLocked | libraries/rttherad_libraries/src/scheduler.c:872-961 | in every run, between rt_enter_critical and the last rt_exit_critical the same thread stays current |
| Dispatch.Dispatched | libraries/rttherad_libraries/src/scheduler.c:409-529 | after each of them, with the lock open, the current thread runs and no ready thread outranks it |
| Dispatch.ReprioritizedOrder | libraries/rttherad_libraries/src/thread.c:685-704 | a ready thread that is given a priority goes to the end of its list, and the others keep their order |
| Dispatch.NextOrder | libraries/rttherad_libraries/src/scheduler.c:715-728 | whatever happens, the ready threads of a priority keep their order and newcomers join behind them |
| Dispatch.NoOvertaking | libraries/rttherad_libraries/src/scheduler.c:699-733 | in every run, of two ready threads of the same priority the one before stays before, and the other is not the next to run |
| ThreadOps.System.constructor | libraries/rttherad_libraries/src/scheduler.c:182-230 | an initial system in agreement, nobody ready but the first thread running |
| ThreadOps.System.RemoveThread | libraries/rttherad_libraries/src/scheduler.c:796-826 | removal, bit included, is that of the specification |
| ThreadOps.System.InsertThread | libraries/rttherad_libraries/src/scheduler.c:699-733 | insertion, bit included, is that of the specification; the current thread just runs on |
| ThreadOps.System.Schedule | libraries/rttherad_libraries/src/scheduler.c:409-529 | the switch, carried out field by field, is Scheduled, which does nothing while the lock is held |
| ThreadOps.System.SuspendThread | libraries/rttherad_libraries/src/thread.c:766-806 | is Suspended, and reports whether the thread was active |
| ThreadOps.System.ResumeThread | libraries/rttherad_libraries/src/thread.c:815-848 | is Resumed, and reports whether the thread was suspended |
| ThreadOps.System.Timeout | libraries/rttherad_libraries/src/thread.c:858-882 | is TimedOut for any thread with an armed timer, so that its assertion holds |
| ThreadOps.System.Sleep | libraries/rttherad_libraries/src/thread.c:531-562 | is Slept |
| ThreadOps.System.ChangePriority | libraries/rttherad_libraries/src/thread.c:673-714 | is Reprioritized |
| ThreadOps.System.Startup | libraries/rttherad_libraries/src/thread.c:315-345 | is StartedUp |
| ThreadOps.System.Exit | libraries/rttherad_libraries/src/thread.c:105-141 | is Exited |
| ThreadOps.System.YieldThread | libraries/rttherad_libraries/src/thread.c:508-521 | is Yielded |
| ThreadOps.System.TickIncrease | libraries/rttherad_libraries/src/clock.c:62-85 | is Ticked: one off the slice, the wrap of the remaining ticks included, and with the last a yield |
| ThreadOps.System.EnterCritical | libraries/rttherad_libraries/src/scheduler.c:872-886 | counts the lock |
| ThreadOps.System.ExitCritical | libraries/rttherad_libraries/src/scheduler.c:936-961 | uncounts it, and the last exit schedules |
| ThreadOps.System.WaitOn | libraries/rttherad_libraries/src/ipc.c:83-129 | the search for the place in the wait list ends where Waiting says |
| ThreadOps.System.ResumeFirst | libraries/rttherad_libraries/src/ipc.c:140-154 | resumes the first waiting thread |
| Mutexes.TakeKeeps | libraries/rttherad_libraries/src/ipc.c:670-815 | taking a mutex, with or without waiting, keeps priority inheritance and all else that Good lists |
| Mutexes.ReleaseKeeps | libraries/rttherad_libraries/src/ipc.c:826-933 | releasing, with hand-off or not, keeps it |
| Mutexes.TimeoutKeeps | libraries/rttherad_libraries/src/thread.c:858-882 | a waiter that times out keeps it; the owner keeps what it inherited |
| Mutexes.LentKeeps | libraries/rttherad_libraries/src/ipc.c:755-762 | after lending, the owner is at least as urgent as the priority lent |
| Mutexes.HandedOn | libraries/rttherad_libraries/src/ipc.c:869-905 | a hand-off gives the owner its own priority back and makes the first waiter the owner, as urgent as those left |
| Mutexes.ReturnKeeps | libraries/rttherad_libraries/src/ipc.c:789-804 | a thread that waited returns EOK exactly if it owns the mutex, and -RT_ETIMEOUT if it does not |
| MutualExclusion.TakeAnswers | libraries/rttherad_libraries/src/ipc.c:706-806 | EOK exactly if the mutex is the caller's afterwards, held once more; -RT_ETIMEOUT exactly if another owns it and the caller would not wait; -RT_EFULL exactly if held as often as can be; else the caller waits |
| MutualExclusion.TakeReturns | libraries/rttherad_libraries/src/ipc.c:706-748 | a take that does not wait changes nothing about any thread but the caller's error; a mutex that was free notes the caller's own priority |
| MutualExclusion.TakeWaits | libraries/rttherad_libraries/src/ipc.c:749-787 | a take that waits suspends the caller where the flag puts it, armed exactly if its time is positive, and gives the owner the more urgent of the two priorities, nobody else another |
| MutualExclusion.ReleaseAnswers | libraries/rttherad_libraries/src/ipc.c:846-930 | EOK exactly if the caller owned the mutex, which it then holds once less, with its own priority back after the last; refused without effect to anybody else; it schedules exactly after a hand-off |
| MutualExclusion.ReleaseHandsOn | libraries/rttherad_libraries/src/ipc.c:877-905 | the first waiter becomes the owner, holds the mutex once, is ready without a timer and will return EOK |
| MutualExclusion.InsideStep | libraries/rttherad_libraries/src/ipc.c:670-933 | what each section adds to the successful takes less releases of a thread is what it adds to the account of the mutex |
| MutualExclusion.Accounts | libraries/rttherad_libraries/src/ipc.c:670-933 | in every state of every run the successful takes of a thread less its releases are what the mutex accounts to it |
| MutualExclusion.AtMostOneInside | libraries/rttherad_libraries/src/ipc.c:670-933 | in every state of every run at most one thread has taken the mutex more often than released it |
| Mutexes.StepKeeps | libraries/rttherad_libraries/src/ipc.c:670-933 | every section of every thread, interrupt and timer keeps Good |
| Mutexes.Inheritance | libraries/rttherad_libraries/src/ipc.c:670-933 | in every state of every run the owner of a priority-ordered mutex is as urgent as each waiter, and every thread that owns none has the priority it was given |
| Mutexes.HandOffInherits | libraries/rttherad_libraries/src/ipc.c:869-905 | after a hand-off the new owner is as urgent as those left waiting exactly if the first waiter was as urgent as all |
| MutexFifo.FifoInversion | libraries/rttherad_libraries/src/ipc.c:869-905 | with the FIFO flag a run from rest ends in a hand-off that leaves a thread of priority 3 waiting for an owner of priority 9 |
| MutexFifo.Arriving | libraries/rttherad_libraries/src/ipc.c:755-787 | in such a run a more urgent thread starts, waits behind the others and lends the owner its priority |
| MutexOps.MutexObject.Take | libraries/rttherad_libraries/src/ipc.c:670-815 | field by field, is Taken, followed by rt_schedule if the thread has to wait |
| MutexOps.MutexObject.Release | libraries/rttherad_libraries/src/ipc.c:826-933 | field by field, is Released, followed by rt_schedule after a hand-off only |
| Semaphores.TakeKeeps | libraries/rttherad_libraries/src/ipc.c:330-415 | a take, by a thread or without waiting by an interrupt in the middle of another take, keeps "units left only if nobody waits" and the balance of units |
| Semaphores.ReleaseKeeps | libraries/rttherad_libraries/src/ipc.c:439-487 | a release keeps them: it grants its unit to the first waiter, or counts up |
| Semaphores.StepKeeps | libraries/rttherad_libraries/src/ipc.c:330-487 | every section of every thread, interrupt and timer keeps them |
| Semaphores.Conservation | libraries/rttherad_libraries/src/ipc.c:330-487 | in every state of every run: units left imply no waiters, and initial plus released units equal units left plus granted |
| Semaphores.ReturnCode | libraries/rttherad_libraries/src/ipc.c:405-408 | a thread that waited was granted a unit exactly if it returns EOK and timed out exactly if it returns -RT_ETIMEOUT, never both |
| Semaphores.TakeAnswers | libraries/rttherad_libraries/src/ipc.c:347-366 | EOK exactly if there is a unit, which is then gone; -RT_ETIMEOUT exactly if there is none and the caller would not wait, without effect; else it waits |
| Semaphores.TakeWaits | libraries/rttherad_libraries/src/ipc.c:367-403 | a take that waits suspends the caller where the flag puts it, armed exactly if its time is positive, and concerns nobody else |
| Semaphores.ReleaseAnswers | libraries/rttherad_libraries/src/ipc.c:455-485 | a release resumes the first waiter, its unit granted, or counts up; at the maximum it is refused without effect |
| SemaphoreOps.Semaphore.Take | libraries/rttherad_libraries/src/ipc.c:330-415 | field by field, is Taken, followed by rt_schedule if the thread has to wait |
| SemaphoreOps.Semaphore.Release | libraries/rttherad_libraries/src/ipc.c:439-487 | field by field, is Released, followed by rt_schedule if a thread was resumed; full is refused |
| Events.NoneLeftSatisfied | libraries/rttherad_libraries/src/ipc.c:1101-1160 | after a send no waiting thread is left that the set satisfies, although resumed threads took bits out of it |
| Events.AllAccounted | libraries/rttherad_libraries/src/ipc.c:1106-1160 | every waiting thread is either resumed or left waiting, none twice |
| Events.SameEitherWay | libraries/rttherad_libraries/src/ipc.c:1217-1297 | a thread gets the same bits and leaves the same set whether it need not wait or waits for the send, and the sweep goes on with that set |
| Events.SatisfiedMeans | libraries/rttherad_libraries/src/ipc.c:1219-1228 | a thread is satisfied if every bit it asks for is set, or with the OR option if one of them is |
| Events.BitsGot | libraries/rttherad_libraries/src/ipc.c:1237-1247 | bit by bit: got is what is set and asked for, at once or by a send, and exactly that is cleared |
| Events.SweepIsFair | libraries/rttherad_libraries/src/ipc.c:1110-1155 | bit by bit, for every grant of a send: the bits asked for that are set and were not cleared for one before; all of them, or with the OR option at least one; and the set left is what was cleared for nobody |
| EventRuns.Sweep | libraries/rttherad_libraries/src/ipc.c:1106-1160 | the sweep of a send resumes exactly the threads it grants, and the wait list keeps the others in their order |
| EventRuns.SendKeeps | libraries/rttherad_libraries/src/ipc.c:1081-1170 | a send leaves nobody waiting whom the set satisfies |
| EventRuns.ToldEach | libraries/rttherad_libraries/src/ipc.c:1129 | each thread told reads what it was granted |
| EventRuns.SendDelivers | libraries/rttherad_libraries/src/ipc.c:1081-1170 | each resumed thread, in the order of the wait list, reads exactly the bits it asked for that are set and were not cleared for one before; exactly the others stay on the list |
| EventRuns.RecvKeeps | libraries/rttherad_libraries/src/ipc.c:1186-1300 | nor does a receive, which may take bits out or join the wait list |
| EventRuns.RecvAnswers | libraries/rttherad_libraries/src/ipc.c:1213-1290 | a receive gets exactly the bits that are set and asked for and clears exactly these; unsatisfied, it fails without effect or the thread waits, armed exactly if its time is positive |
| EventRuns.StepKeeps | libraries/rttherad_libraries/src/ipc.c:1081-1300 | nor does any other section of a thread, interrupt or timer |
| EventRuns.NobodyLeftWaiting | libraries/rttherad_libraries/src/ipc.c:1081-1300 | in every state of every run nobody on the wait list is satisfied by the set |
| EventOps.EventSet.Send | libraries/rttherad_libraries/src/ipc.c:1081-1170 | the loop over the wait list, which shrinks as it goes, resumes the threads of the sweep and leaves what the sweep leaves of the set; bit by bit, each reads what it asked for that is set and was not cleared for one before; then rt_schedule if anybody was resumed |
| EventOps.EventSet.ResumeSatisfied | libraries/rttherad_libraries/src/ipc.c:1106-1163 | the loop itself, and what it tells each thread, bit by bit |
| EventOps.EventSet.Recv | libraries/rttherad_libraries/src/ipc.c:1186-1300 | bits are got at once exactly if the set satisfies the request, those that are set and asked for, and exactly these are cleared if asked; otherwise -RT_ETIMEOUT or the thread waits |
| Gates.Gate.Put | libraries/rttherad_libraries/src/ipc.c:1610-1632 | adding a token and waking the first waiter loses no wakeup |
| Gates.Gate.Take | libraries/rttherad_libraries/src/ipc.c:1768-1772 | a thread, woken or not, that takes a token loses no wakeup |
| Gates.Gate.Wait | libraries/rttherad_libraries/src/ipc.c:2098-2148 | a thread that finds no token and waits loses no wakeup |
| Gates.Gate.Expire | libraries/rttherad_libraries/src/thread.c:858-882 | nor does a waiter whose time runs out |
| GateWaits.EffectKeeps | libraries/rttherad_libraries/src/ipc.c:1531-1637 | a locked section that lets its caller wait, fail or go on, or calls the first waiter, leaves every thread on the list, or off it without error, as the protocol has it |
| GateWaits.EffectMeans | libraries/rttherad_libraries/src/ipc.c:1531-1637 | a thread that waits is suspended at its place without error, armed exactly if its time is positive; one that is called is the first of its list, can run and has no timer; nobody else is concerned |
| GateWaits.SettledRuns | libraries/rttherad_libraries/src/ipc.c:1574-1637 | when a thread waits or was called, with the lock open, afterwards the current thread runs and none outranks it |
| GateWaits.CallKeeps | libraries/rttherad_libraries/src/ipc.c:1621-1632 | calling a waiter takes it off its list, ready and without error |
| GateWaits.OtherKeeps | libraries/rttherad_libraries/src/thread.c:858-882 | of all other sections only a timeout takes a thread off a wait list |
| Mailboxes.Box.PostedLast | libraries/rttherad_libraries/src/ipc.c:1603-1614 | storing at the input offset, wrap included, puts the mail last and keeps the rest |
| Mailboxes.Box.FetchedFirst | libraries/rttherad_libraries/src/ipc.c:1760-1772 | reading at the output offset gives the oldest mail and keeps the rest in order |
| Mailboxes.SendSectionOk | libraries/rttherad_libraries/src/ipc.c:1531-1637 | a section of a send keeps the ring and both wait protocols |
| Mailboxes.RecvSectionOk | libraries/rttherad_libraries/src/ipc.c:1684-1794 | a section of a receive keeps them |
| Mailboxes.RunOk | libraries/rttherad_libraries/src/ipc.c:1510-1795 | in every state of every run no wakeup is lost on either side, and the mail received and that in the box is the mail sent, in order |
| MailboxOps.Mailbox.Send | libraries/rttherad_libraries/src/ipc.c:1510-1638 | a pass through the send does to the threads what SendEffect says, whether first or after having waited: full means wait or -RT_EFULL and an unchanged box; otherwise the mail is last and a receiver woken |
| MailboxOps.Mailbox.Recv | libraries/rttherad_libraries/src/ipc.c:1667-1795 | a pass through the receive does to the threads what RecvEffect says, the error set when the time is used up included: empty means wait or -RT_ETIMEOUT; otherwise the oldest mail and a sender woken |
| MailboxRuns.SendAgrees | libraries/rttherad_libraries/src/ipc.c:1531-1637 | what a send section of the protocol does to waiting and woken threads is what SendEffect does to them in the kernel |
| MailboxRuns.RecvAgrees | libraries/rttherad_libraries/src/ipc.c:1684-1794 | likewise a receive section and RecvEffect |
| MailboxRuns.StepKeeps | libraries/rttherad_libraries/src/ipc.c:1510-1795 | every section of the kernel is a section of the protocol or none of its concern, timeouts included |
| MailboxRuns.NoLostWakeup | libraries/rttherad_libraries/src/ipc.c:1510-1795 | in every run on the scheduler, while threads are on a wait list every mail or free place has a thread called from it that is on no list, found no error and will try again; mail received and mail in the box are the mail sent |
| MqSlots.TakeFreeOk | libraries/rttherad_libraries/src/ipc.c:2098-2161 | taking a free slot leaves well-linked lists and puts the slot in nobody's list |
| MqSlots.LinkLastOk | libraries/rttherad_libraries/src/ipc.c:2173-2190 | linking a slot at the tail appends it; the count is again the length of the queue |
| MqSlots.LinkFirstOk | libraries/rttherad_libraries/src/ipc.c:2286-2298 | linking a slot at the head prepends it; likewise |
| MqSlots.TakeFirstOk | libraries/rttherad_libraries/src/ipc.c:2436-2449 | unlinking the head takes the first slot; the tail is null exactly if the queue is empty |
| MqSlots.GiveBackOk | libraries/rttherad_libraries/src/ipc.c:2459-2461 | giving a slot back puts it on the free list |
| MqSlots.ClearOk | libraries/rttherad_libraries/src/ipc.c:2166-2167 | clearing the link of a slot between two sections disturbs neither list |
| MsgQueues.SendSectionOk | libraries/rttherad_libraries/src/ipc.c:2083-2164 | the first section of a send keeps slots, data and wait protocols |
| MsgQueues.CopiedInOk | libraries/rttherad_libraries/src/ipc.c:2168-2169 | a byte copied in outside the lock disturbs no other slot's message |
| MsgQueues.LinkedOk | libraries/rttherad_libraries/src/ipc.c:2171-2208 | the last section of a send keeps slots, data and wait protocols |
| MsgQueues.RecvSectionOk | libraries/rttherad_libraries/src/ipc.c:2359-2452 | the first section of a receive keeps them |
| MsgQueues.CopiedOutOk | libraries/rttherad_libraries/src/ipc.c:2454-2455 | a byte copied out outside the lock is that of the message taken |
| MsgQueues.FinishedOk | libraries/rttherad_libraries/src/ipc.c:2457-2476 | the last section of a receive keeps them |
| MsgQueues.RunOk | libraries/rttherad_libraries/src/ipc.c:2056-2484 | in every state of every run each slot is in exactly one place, the count is the length, the tail is null exactly if the head is, and no wakeup is lost on either side |
| MsgQueues.DequeSteps | libraries/rttherad_libraries/src/ipc.c:2171-2190 | the queue is a deque of whole messages: send appends at its link step, urgent prepends, receive takes the first, nothing else changes it |
| MsgQueues.BytesReceived | libraries/rttherad_libraries/src/ipc.c:2454-2455 | the bytes received are those of the message taken, up to the shorter length, although both copies run unlocked |
| MsgQueues.FirstInFirstOut | libraries/rttherad_libraries/src/ipc.c:2056-2484 | without urgent messages, those received and those queued are those sent, in order |
| MsgQueues.NothingLost | libraries/rttherad_libraries/src/ipc.c:2056-2484 | no message is lost or received twice, urgent ones included |
| MsgQueueRuns.SectionAgrees | libraries/rttherad_libraries/src/ipc.c:2056-2484 | what each section of the protocol does to waiting and woken threads is what its effect does to them in the kernel |
| MsgQueueRuns.StepKeeps | libraries/rttherad_libraries/src/ipc.c:2056-2484 | every section of the kernel is a section of the protocol or none of its concern |
| MsgQueueRuns.NoLostWakeup | libraries/rttherad_libraries/src/ipc.c:2056-2484 | in every run on the scheduler no wakeup is lost, and the queue is where a run of the protocol has brought it |
| MsgQueueRuns.EveryMessageOnce | libraries/rttherad_libraries/src/ipc.c:2056-2484 | in every run on the scheduler no message is lost or received twice |
| MsgQueueOps.MessageQueue.constructor | libraries/rttherad_libraries/src/ipc.c:1862-1912 | the free list runs through all slots, last first |
| MsgQueueOps.MessageQueue.TakeFree | libraries/rttherad_libraries/src/ipc.c:2083-2164 | takes the free slot; without one the thread waits, or gives up with -RT_EFULL |
| MsgQueueOps.MessageQueue.Attach | libraries/rttherad_libraries/src/ipc.c:2173-2194 | links the slot at the end or, if urgent, in front; the count cannot overflow |
| MsgQueueOps.MessageQueue.Fill | libraries/rttherad_libraries/src/ipc.c:2166-2169 | fills the slot with the message and touches no other |
| MsgQueueOps.MessageQueue.Link | libraries/rttherad_libraries/src/ipc.c:2171-2212 | appends or prepends the slot and wakes the first receiver |
| MsgQueueOps.MessageQueue.TakeFirst | libraries/rttherad_libraries/src/ipc.c:2359-2452 | takes the first slot; without one the thread waits, or gives up with -RT_ETIMEOUT, which a retry also records |
| MsgQueueOps.MessageQueue.Copy | libraries/rttherad_libraries/src/ipc.c:2454-2455 | gives the first min(size, width) bytes of the slot |
| MsgQueueOps.MessageQueue.GiveBack | libraries/rttherad_libraries/src/ipc.c:2457-2476 | frees the slot and wakes the first sender |
| MemPools.Blocks.AllocatedOk | libraries/rttherad_libraries/src/mempool.c:371-382 | the block handed out was free and is in use afterwards; no other block changes hands |
| MemPools.Blocks.FreedOk | libraries/rttherad_libraries/src/mempool.c:418-423 | a block in use still names its pool, and giving it back frees it alone |
| MemPools.RunOk | libraries/rttherad_libraries/src/mempool.c:303-449 | in every state of every run no wakeup is lost, and the free count is the number of free blocks: all less those granted plus those freed |
| MemPoolOps.MemPool.constructor | libraries/rttherad_libraries/src/mempool.c:77-124 | as many blocks as there is room for; the free list runs through all of them |
| MemPoolOps.LastLink | libraries/rttherad_libraries/src/mempool.c:104-119 | the end of the free list is written inside the pool exactly if there is room for a block, and else in front of it |
| MemPoolOps.InFrontOfThePool | libraries/rttherad_libraries/src/mempool.c:104-119 | for a pool of eight bytes and blocks of eight, twelve bytes in front |
| MemPoolOps.MemPool.Alloc | libraries/rttherad_libraries/src/mempool.c:303-391 | a pass through the allocation: a block that was free, or, exactly if the count is zero, NULL and the thread waits in front of the others or gives up with its error set |
| MemPoolOps.MemPool.Free | libraries/rttherad_libraries/src/mempool.c:399-449 | exactly that block becomes free, and the first waiter, its error cleared, is woken |
| MemPoolRuns.AllocAgrees | libraries/rttherad_libraries/src/mempool.c:316-385 | what an allocation section of the protocol does to waiting and woken threads is what AllocEffect does to them in the kernel |
| MemPoolRuns.WaitsInFront | libraries/rttherad_libraries/src/mempool.c:331-352 | a thread without a block waits in front of the others and is the first to be woken |
| MemPoolRuns.FreeAgrees | libraries/rttherad_libraries/src/mempool.c:415-448 | freeing calls the first waiter and nobody else |
| MemPoolRuns.StepKeeps | libraries/rttherad_libraries/src/mempool.c:303-449 | every section of the kernel is a section of the protocol or none of its concern |
| MemPoolRuns.NoLostWakeup | libraries/rttherad_libraries/src/mempool.c:303-449 | in every run on the scheduler, while threads wait every free block has a thread called from the list that will try again |
| SmallBlocks.CutTiled | libraries/rttherad_libraries/src/mem.c:329-348 | cutting a block by writing a header into it leaves blocks that tile the heap and are linked both ways |
| SmallBlocks.JoinTiled | libraries/rttherad_libraries/src/mem.c:178-179 | swallowing the next block leaves blocks that tile the heap |
| SmallBlocks.UsedBytesCut | libraries/rttherad_libraries/src/mem.c:474-487 | how cutting changes the bytes in use |
| SmallBlocks.UsedBytesJoin | libraries/rttherad_libraries/src/mem.c:165-193 | joining free blocks changes no bytes in use |
| SmallBlocks.JoinLowest | libraries/rttherad_libraries/src/mem.c:174-192 | joining keeps the lowest free block the lowest |
| SmallMem.SmallHeap.constructor | libraries/rttherad_libraries/src/mem.c:204-256 | one free block up to the end |
| SmallMem.SmallHeap.Find | libraries/rttherad_libraries/src/mem.c:305-312 | the search from the lowest free block finds the first block of the whole heap that fits; it finds none exactly if none fits but a last block filled exactly |
| SmallMem.SmallHeap.RaiseLowest | libraries/rttherad_libraries/src/mem.c:380-387 | the walk ends at the lowest free block or the end |
| SmallMem.SmallHeap.Malloc | libraries/rttherad_libraries/src/mem.c:272-410 | the block handed out is the first that fits, cut to the rounded size if the rest can stand alone; it was nobody's, the others and their bytes stay; the heap stays tiled and coalesced, the lowest free block and the bytes in use are exact; NULL exactly if nothing is found |
| SmallMem.AlignCovers | libraries/rttherad_libraries/src/mem.c:290 | the rounded size covers the size asked for exactly up to 2^32 - 4; above, it is zero |
| SmallMem.SizesWrap | libraries/rttherad_libraries/src/mem.c:290-300 | asked for 2^32 - 1 bytes rt_malloc hands out twelve, and rt_realloc to that size frees the block |
| SmallMem.SearchNeverEnds | libraries/rttherad_libraries/src/mem.c:305-307 | in a heap without room for a smallest payload the bound of the search wraps and the search goes on for ever |
| SmallMem.SmallHeap.PlugHoles | libraries/rttherad_libraries/src/mem.c:156-194 | the free block joins with its free neighbours, and no two free blocks are adjacent |
| SmallMem.SmallHeap.Free | libraries/rttherad_libraries/src/mem.c:552-615 | exactly that block is given back; no byte changes; everything the heap keeps is kept |
| SmallMem.SmallHeap.Shrink | libraries/rttherad_libraries/src/mem.c:471-504 | the block ends where asked and keeps its bytes up to there, the rest is free and joined; the bytes of other blocks stay |
| SmallMem.SmallHeap.Realloc | libraries/rttherad_libraries/src/mem.c:421-516 | on every path exactly the block asked about changes and keeps its first min(old, new) bytes, the others keep theirs; it stays in place exactly if the size is right or more than a smallest block can be cut off, and is then exactly as long as asked; else it moves to the first block that fits, with an exact high-water mark; it fails exactly if nothing is found, and failure changes nothing; a size that rounds to zero frees; an address outside the heap comes back |
| SmallMem.SearchMisses | libraries/rttherad_libraries/src/mem.c:306 | a free block with room is passed over exactly if it is the last and the request would fill it |
| SmallMem.RefusesAll | libraries/rttherad_libraries/src/mem.c:306 | a fresh heap refuses a request for all of it |
| SmallMem.JoinsAhead | libraries/rttherad_libraries/src/mem.c:170-180 | the lowest free block is never the one swallowed from the front |
| SmallMem.JoinsBehind | libraries/rttherad_libraries/src/mem.c:182-193 | nor the one swallowed from behind |
| SlabPages.Pages.constructor | libraries/rttherad_libraries/src/slab.c:327-334 | all pages listed, none handed out |
| SlabPages.Pages.Alloc | libraries/rttherad_libraries/src/slab.c:236-270 | the first run long enough gives its first pages, and it fails exactly if there is none; listed and handed-out pages are together those of the heap |
| SlabPages.Pages.Release | libraries/rttherad_libraries/src/slab.c:272-322 | the pages given back are listed again, the runs sorted, disjoint and never adjacent |
| SlabPages.Pages.JoinBehind | libraries/rttherad_libraries/src/slab.c:291-300 | a run grows by the pages behind it and swallows the next run if that follows at once |
| SlabPages.SplicedOrdered | libraries/rttherad_libraries/src/slab.c:246-317 | replacing runs by one that fits between its neighbours keeps runs sorted and apart |
| SlabZones.ZoneIndexFits | libraries/rttherad_libraries/src/slab.c:401-459 | the chunk holds the request and wastes less than eight bytes or an eighth |
| SlabZones.ZoneIndexShared | libraries/rttherad_libraries/src/slab.c:401-459 | two sizes share an index exactly if they share a chunk size |
| SlabZones.ZoneRoom | libraries/rttherad_libraries/src/slab.c:628-646 | a zone has room for at least two chunks, all inside it, and those of a power of two are aligned |
| SlabZones.TakeOk | libraries/rttherad_libraries/src/slab.c:539-568 | the count of free chunks is that of the never-used and the listed ones, so the free-chunk branch never sees an empty list, and the chunk taken was nobody's |
| SlabZones.GiveOk | libraries/rttherad_libraries/src/slab.c:830-842 | giving a chunk back keeps the count, and the count is full exactly if no chunk is in use |
| SlabZones.ZoneHeap.Malloc | libraries/rttherad_libraries/src/slab.c:523-652 | exactly the chunk returned goes into a caller's hands, of the first listed zone of the class, else of the first spare zone, else of a new one; zones are listed exactly if they have free chunks and are in use; failure means no listed zone, no spare zone and no pages |
| SlabZones.ZoneHeap.Free | libraries/rttherad_libraries/src/slab.c:822-903 | exactly that chunk leaves its caller's hands; its zone is retired exactly if no chunk is in use and its class has another zone, and is then spare or, past two spare ones, released |
| SlabZones.ZoneHeap.PutBack | libraries/rttherad_libraries/src/slab.c:830-847 | the chunk is free, and its zone, if it had none, is first on the list of its class |
| SlabZones.ZoneHeap.Retire | libraries/rttherad_libraries/src/slab.c:855-897 | the zone leaves its list for the spare zones, or for the page allocator if there are two |
| SlabHeap.NoOverlap | libraries/rttherad_libraries/src/slab.c:478-667 | no two blocks in the hands of callers overlap, chunks or large allocations |
| SlabHeap.InPages | libraries/rttherad_libraries/src/slab.c:478-667 | every byte of such a block lies in a page that the page allocator has handed out |
| SlabHeap.SlabHeap.constructor | libraries/rttherad_libraries/src/slab.c:344-396 | a heap on the pages, with nothing handed out |
| SlabHeap.SlabHeap.Malloc | libraries/rttherad_libraries/src/slab.c:478-667 | the block was nobody's, is as long as its chunk class or whole pages make it, and is the only one handed out in addition; NULL exactly if there is no chunk, spare zone or run of pages for it |
| SlabHeap.SlabHeap.MallocLarge | libraries/rttherad_libraries/src/slab.c:492-517 | a large request gets whole pages, and the table says so |
| SlabHeap.SlabHeap.MallocSmall | libraries/rttherad_libraries/src/slab.c:519-667 | a small one gets a chunk, of a zone with pages of its own |
| SlabHeap.SlabHeap.Free | libraries/rttherad_libraries/src/slab.c:771-904 | the table leads from the address to the block, and exactly that block is given back |
| SlabHeap.SlabHeap.FreeSmall | libraries/rttherad_libraries/src/slab.c:825-900 | a chunk goes back to its zone, and a zone that is released gives its pages back |
| SlabHeap.SlabHeap.FreeLarge | libraries/rttherad_libraries/src/slab.c:797-822 | a large allocation gives its pages back |
| SlabHeap.ZoneComes | libraries/rttherad_libraries/src/slab.c:601-623 | a zone on pages that were free keeps zones and large allocations apart and the table right |
| SlabHeap.ZoneGoes | libraries/rttherad_libraries/src/slab.c:883-899 | and so does giving its pages back |
| SlabZones.ChunkInside | libraries/rttherad_libraries/src/slab.c:629-645 | a zone has its chunks inside it, behind its header |
| Dl1a.Encode | libraries/zf_device/zf_device_dl1a.c:204-222 | the loop computes the code of the timeout |
| Dl1a.ErrorBound | libraries/zf_device/zf_device_dl1a.c:190-222 | decoding an encoded timeout never exceeds it and errs by less than 2^ms, which is at most (t - 1) / 128 when ms > 0 |
| Dl1a.Monotone | libraries/zf_device/zf_device_dl1a.c:204-222 | a longer timeout never has a smaller code |
| Dl1a.RoundTrip | libraries/zf_device/zf_device_dl1a.c:190-222 | encoding a decoded register gives it back exactly if the register is normalised |
| Mutexes.ReleaseUndoesTake | libraries/rttherad_libraries/src/ipc.c:706-933 | releasing right after taking a free or own mutex restores the mutex, the priority and everything else but the cleared error |
| Mutexes.ReleaseRunsOn | libraries/rttherad_libraries/src/ipc.c:906-930 | a release that hands the mutex to nobody does not schedule, and leaves the running thread outranked exactly if a ready thread outranks the priority it gets back |
| Mutexes.ReleaseOutranked | libraries/rttherad_libraries/src/ipc.c:906-930 | a state in which the running thread outranks all ready ones, and one outranks it after the release |
| Mutexes.AcquireKeeps | libraries/rttherad_libraries/src/ipc.c:720-735 | acquiring a free mutex keeps Good; its owner starts with its own priority |
| Mutexes.WaitKeeps | libraries/rttherad_libraries/src/ipc.c:764-767 | joining the wait list behind an owner at least as urgent keeps Good |
| Mutexes.FreedKeeps | libraries/rttherad_libraries/src/ipc.c:869-922 | a release that hands the mutex to nobody keeps Good and gives the owner its own priority back |
| Mutexes.HandedKeeps | libraries/rttherad_libraries/src/ipc.c:869-905 | a release that hands the mutex on keeps Good |
| MutexOps.MutexObject.constructor | libraries/rttherad_libraries/src/ipc.c:546-566 | a free mutex without owner |
| SemaphoreOps.Semaphore.constructor | libraries/rttherad_libraries/src/ipc.c:205-226 | a semaphore with its initial units |
| MailboxOps.Mailbox.constructor | libraries/rttherad_libraries/src/ipc.c:1362-1389 | an empty mailbox |
| MailboxOps.Mailbox.Post | libraries/rttherad_libraries/src/ipc.c:1603-1620 | stores the mail last; the counter does not overflow |
| MailboxOps.Mailbox.Fetch | libraries/rttherad_libraries/src/ipc.c:1759-1771 | reads the oldest mail |
| EventOps.EventSet.constructor | libraries/rttherad_libraries/src/ipc.c:967-984 | an empty set and nobody waiting |
| Semaphores.OtherPhase | libraries/rttherad_libraries/src/ipc.c:330-487 | no other section, timeouts apart, changes how far a thread is with its take |
| Semaphores.OtherWaits | libraries/rttherad_libraries/src/ipc.c:330-487 | no other section makes a thread wait for a semaphore |
| Mailboxes.OneStep | libraries/rttherad_libraries/src/ipc.c:1510-1795 | what a section takes out of the box followed by the mail left is the mail there was followed by what it puts in |
| MsgQueues.ClearedOk | libraries/rttherad_libraries/src/ipc.c:2166-2167 | clearing a link outside the lock keeps slots, data and wait protocols |
| MsgQueues.ExpiredOk | libraries/rttherad_libraries/src/thread.c:858-882 | a waiter whose time runs out keeps them |
| MsgQueues.InitialOk | libraries/rttherad_libraries/src/ipc.c:1884-1909 | the initial queue has them |
| MemPools.AllocSectionOk | libraries/rttherad_libraries/src/mempool.c:316-385 | a section of an allocation keeps the blocks and the wait protocol |
| MemPools.FreeSectionOk | libraries/rttherad_libraries/src/mempool.c:415-448 | a free keeps them |
| Scheduler.Woken | libraries/rttherad_libraries/src/scheduler.c:699-733 | a thread put on the ready list is ready, or goes on running if it is current |
| Scheduler.Armed | libraries/rttherad_libraries/src/ipc.c:386-397 | starting its timer changes nothing else about a suspended thread |
| Scheduler.Slept | libraries/rttherad_libraries/src/thread.c:531-557 | a sleeping thread is suspended with its timer armed and on no wait list |
| Scheduler.Yielded | libraries/rttherad_libraries/src/thread.c:508-521 | a yield fills the slice of the current thread and changes else only which active thread runs |
| Scheduler.Ticked | libraries/rttherad_libraries/src/clock.c:73-85 | a tick takes one off the slice of the current thread, or fills it again with the last, and changes else only which active thread runs; before the last it switches nobody |
| Scheduler.Left | libraries/rttherad_libraries/src/scheduler.c:936-961 | leaving a critical section counts down to zero and schedules only then |
| ThreadOps.System.Unlink | libraries/rttherad_libraries/include/rtservice.h:86-92 | the node leaves whichever list it is on |
| ThreadOps.System.Enqueue | libraries/rttherad_libraries/src/scheduler.c:715-728 | the thread becomes ready, last on the list of its priority, with the bit set: On, which keeps lists, bitmap and states in agreement |
| ThreadOps.System.SwitchTo | libraries/rttherad_libraries/src/scheduler.c:447-462 | the switch proper, from the choice of the thread on, is Switched: one thread runs, the other is put back, and lists, bitmap and states agree |
| ThreadOps.System.ArmTimer | libraries/rttherad_libraries/src/ipc.c:386-397 | is Armed |
| ThreadOps.System.Block | libraries/rttherad_libraries/src/ipc.c:371-403 | is Blocked, then rt_schedule |
| ThreadOps.System.BlockFront | libraries/rttherad_libraries/src/mempool.c:331-357 | is BlockedAt the front of the list, then rt_schedule |
| ThreadOps.System.Detach | libraries/rttherad_libraries/src/thread.c:833-842 | is Detached, and reports whether the thread was suspended |
| ThreadOps.System.WakeFirst | libraries/rttherad_libraries/src/ipc.c:1621-1632 | resumes the first waiting thread, if any, then rt_schedule |
| Timer.TimerList.Withdraw | libraries/rttherad_libraries/src/timer.c:329-342 | the timer leaves all rows and gets its deadline, wrapped and not |
| Timer.TimerList.Link | libraries/rttherad_libraries/src/timer.c:391-408 | the timer joins its rows and is marked active |
| Timer.TimerList.Obey | libraries/rttherad_libraries/src/timer.c:565 | the calls of a timeout function, one by one, do what ObeyedAll says |
| Timer.TimerList.Enter | libraries/rttherad_libraries/src/timer.c:554-563 | the first due timer goes to the list of the running timer; a one-shot timer is no longer active |
| Timer.TimerList.Release | libraries/rttherad_libraries/src/timer.c:578 | the timer leaves the list of the running timer |
| Timer.TimerList.Leave | libraries/rttherad_libraries/src/timer.c:573-585 | afterwards: the timer is restarted only if its function left it there, periodic and active |
| Timer.TimerList.Next | libraries/rttherad_libraries/src/timer.c:543-552 | the check goes on exactly while a listed timer is due |
| TimerSpec.ObeyedAllOwn | libraries/rttherad_libraries/src/timer.c:564-585 | while its function runs a timer stays on the list of the running timer exactly as far as the function neither starts it nor, if active, stops it |
| TimerRows.OtherDue | libraries/rttherad_libraries/src/timer.c:341-342 | the deadline of an unlisted timer does not matter to a row |
| TimerLinks.RowInsert | libraries/rttherad_libraries/src/timer.c:394-400 | linking behind an entry of a row leaves all other nodes alone |
| MemHeap.MemHeap.LinkBlock | libraries/rttherad_libraries/src/memheap.c:209-213 | links a block behind another in the block list and leaves the free list alone |
| MemHeap.MemHeap.UnlinkBlock | libraries/rttherad_libraries/src/memheap.c:549-551 | unlinks a block from the block list and leaves the free list alone |
| MemHeap.MemHeap.LinkFree | libraries/rttherad_libraries/src/memheap.c:221-225 | links a block at the front of the free list and leaves the block list alone |
| MemHeap.MemHeap.UnlinkFree | libraries/rttherad_libraries/src/memheap.c:215-217 | unlinks a block from the free list and leaves the block list alone |
| MemHeap.MemHeap.Join | libraries/rttherad_libraries/src/memheap.c:540-587 | joins a freed block with its free neighbours; both lists are rings again |
| MemHeap.MemHeap.GrowPayload | libraries/rttherad_libraries/src/memheap.c:350-402 | the payload has exactly the new size and its words, all other payloads theirs; the words gained are no longer available |
| MemHeap.MemHeap.MemCpy | libraries/rttherad_libraries/src/memheap.c:412 | copies the words and touches no others |
| HeapClients.AllocUndisturbed | libraries/rttherad_libraries/src/memheap.c:187-258 | an allocation disturbs no payload but the new one |
| SmallMem.SmallHeap.TakeBlock | libraries/rttherad_libraries/src/mem.c:316-370 | the block is handed out, cut or whole, with exact bytes in use and high-water mark |
| SmallMem.SmallHeap.CutSpace | libraries/rttherad_libraries/src/mem.c:331-348 | writes and links a header inside a block |
| SmallMem.SmallHeap.JoinNext | libraries/rttherad_libraries/src/mem.c:178-179 | links a block past the next |
| SmallMem.SmallHeap.Move | libraries/rttherad_libraries/src/mem.c:507-515 | the first block that fits, cut to size, with the first min(old, new) bytes in exchange for the old one, or nothing changes |
| SmallMem.SmallHeap.Refit | libraries/rttherad_libraries/src/mem.c:455-515 | the payload stays exactly if its size is right or enough can be cut off, and then is as long as asked; else it moves, its bytes with it |
| SmallMem.SmallHeap.CopyPayload | libraries/rttherad_libraries/src/mem.c:510 | copies bytes into a payload and changes those of no other |
| SmallMem.OthersKept | libraries/rttherad_libraries/src/mem.c:329-348 | a change inside one block keeps the bytes of all other payloads |
| SmallMem.SplitKeeps | libraries/rttherad_libraries/src/mem.c:329-348 | cutting a free block and taking its first part leaves no two free blocks adjacent and exact accounts |
| SmallMem.FreedKeeps | libraries/rttherad_libraries/src/mem.c:595-610 | clearing the flag of a block: exact accounts, and only its neighbours may have to be joined |
| SlabPages.Pages.TakeFrom | libraries/rttherad_libraries/src/slab.c:248-263 | takes the first pages of a run and relinks the rest, or unlinks the run |
| SlabPages.Pages.Insert | libraries/rttherad_libraries/src/slab.c:302-317 | a new run, with the pages of the run behind it if that follows at once |
| SlabZones.ZoneHeap.constructor | libraries/rttherad_libraries/src/slab.c:344-396 | no zones yet; the zone size is that of the heap |
| SlabZones.ZoneSizeFor | libraries/rttherad_libraries/src/slab.c:374-377 | the largest of 32K, 64K and 128K that is below the 1024th part of the heap, or 32K |
| SlabZones.ZoneHeap.FromList | libraries/rttherad_libraries/src/slab.c:539-577 | takes a chunk of the first zone of the class, which leaves the list with its last free chunk |
| SlabZones.ZoneHeap.FromNew | libraries/rttherad_libraries/src/slab.c:587-659 | cuts a spare or new zone into chunks and takes the first |

## Left out

- MemHeap.MemHeap.Realloc: with a free block behind the payload, the request must stay a smallest payload below 2^32; beyond that the growth test passes (`HeapResize.GrowFitsExact`) and the code writes a header past the words that are there.
- MemHeap.MemHeap.MoveTo: the lock is given up between the growth test, the allocation, the copy and the free; calls of other threads in these gaps are not modelled.
- MemHeap.MemHeap.constructor: memory is counted in words of four bytes, so copies move whole words; the bytes of a last partial word are not told apart.
- Timer.TimerList.Check: timeout functions act on timers only, through the calls of `TimerSpec.Cmd`; periodic timers, and those that functions may start, have a time that is not zero, because with zero the check need not end (`TimerSpec.DueAgain`), and below half the tick range, as `rt_timer_start` asserts.
- SmallMem.SmallHeap.Malloc: excludes the request for which the search never ends, one that fits a heap of less than twelve bytes (`SmallMem.SearchNeverEnds`); so does `SmallMem.SmallHeap.Realloc`.
- SmallMem.SmallHeap.CutSpace: the bytes under a header are not told apart; header fields are kept beside the bytes.
- MemPoolOps.MemPool.constructor: a pool without room for a block is excluded (`MemPoolOps.LastLink`).
- MailboxOps.Mailbox.Recv: one pass through the loop; how much of the time is left after a wait is a parameter of the next pass. So in `MailboxOps.Mailbox.Send`, `MsgQueueOps` and `MemPoolOps`.
- SlabZones.ZoneHeap.Malloc: zones are numbered and whether there are pages is a parameter; addresses, pages and the table are those of `SlabHeap`. So in `SlabZones.ZoneHeap.FromNew`.
- SlabHeap.SlabHeap.constructor: the pages are set up before, the table's own among those handed out; that the zones' headers and free lists lie in the pages themselves is not modelled.
- Scheduler.Detached: the check that the thread is suspended belongs to this section; the code makes it just before it disables interrupts (thread.c:823-834). So in `ThreadOps.System.Detach`.
- Scheduler.Suspended: the check that the thread is ready or running belongs to this section; the code makes it just before (thread.c:777-785). So in `ThreadOps.System.SuspendThread`.
- Scheduler.StartedUp: the two sections of the resume that it ends with, and the assignments before it, are one step. So in `ThreadOps.System.Startup`.
- ThreadOps.System.Unlink: lists are sequences here and the thread's record says which one it is on; unlinking by the neighbours' pointers is proved in `RtList`.
- Scheduler.Exited: the defunct list that the closed thread joins is left out, and so is the cleanup that the idle thread does for it. So in `ThreadOps.System.Exit`.
- MemHeaps.Heaps.Realloc: each heap has an array of memory of its own; the request that `MemHeap.MemHeap.Realloc` excludes is excluded here too.
- The semaphore that guards a heap.
- `rt_ipc_list_resume_all`, the RESET commands, and deleting or detaching an object that threads still use.
- SMP branches, signals, the soft-timer thread, `cpu.c`; priorities beyond 32 levels (the two-level ready table).
- Context switches, stacks and stack checks: a switch assigns the current thread.
- Object names and registries, hooks, logging, console, devices, `idle.c`, `irq.c`, `components.c`.
- Statistics of the slab heap (`used_mem`, `max_mem`), and `rt_realloc` of the slab heap.
- Board support, clocks, pin multiplexing and bus drivers; in the DL1A driver all bus traffic, the register script and the unit conversions.
