# Verified models of OpenBLT and of two Java applications

This project models seven parts of the repository in Dafny and proves what they are relied on for. `dafny verify
dfyconfig.toml` checks all of it. Code that works on memory, tables or fields in place is modelled as classes and
methods over arrays, fields and maps, with the same branches and constants; each method is tied to a specification
function or predicate, and the theorems are about those.

* **The boundary-tag allocator** (`MallocHeap`, `MallocBins`, `MallocFit`, `MallocState`, `MallocSearch`, `MallocSteps`,
  `MallocFree`, `MallocResize`, `Malloc`). Memory is a sequence of words addressed by byte; headers, feet and the links
  of the bins are words of it, and `h` and `bins` are the chunks and lists they stand for. `Allocator.Valid` says
  that the chunks tile the heap (`Tiled`), that every header tells its size and whether the chunk before it is in use
  and every free chunk's foot repeats its size (`Tagged`), that no two free chunks touch and none touches top
  (`Coalesced`), that every free chunk is in its own bin or the last remainder, in decreasing size order (`Filed`), that
  the bins are doubly linked rings (`Lists`, `Apart`), and that a nonempty bin has its block marked (`Marked`).
  `Malloc`, `Free` and `Realloc` start from it and come back to it, so it holds through every run. The configuration
  is the one the library is compiled with: four-byte sizes, no mmap.
* **The hash table** (`HashProbe`, `HashSlots`, `HashTable`) **and the sort** (`QSort`). The primality of the 26 table
  sizes is the hypothesis `SizesPrime`; that a probe then visits every slot is proved from it. Loads are rationals.
* **The kernel** (`KernelList`, `ResourceIds`, `KernelState`, `KernelSafety`, `KernelSteps`, `KernelLaws`, `Kernel`,
  `Qsem`, `PortState`, `PortTable`, `Port`, `PortScheduling`). The linked lists are proved to be sequences. One step of
  the scheduler is everything a call does up to the switch to another task; runs are arbitrary sequences of allowed
  steps. `KernelLaws` says of each step which tasks change queue, in which order, with which status, and who runs next.
  A `qsem` is interleaved at every atomic addition and every kernel semaphore call, with any number of threads. Ports
  form a table in which some are slaved to others, by links that stay while a run lasts.
* **Address spaces and pages** (`Spans`, `PageGroups`, `AddressSpaces`, `KernelPools`).
* **The Z-machine** (`ZObjects`, `ZStack`, `ZCalls`, `ZText`, `ZDictionary`), which follows sections 3, 6, 12 and 13 of
  the Z-Machine Standards Document.
* **Decimal floating point** (`Decimal`, `DecimalOps`, `DecimalText`, `DecimalRoundTrip`, `DecimalReading`,
  `DecimalMethods`).
* **The VT100 engine** (`VtCells`, `VtScreen`, `VtRuns`, `VtControls`, `VtGrid`, `Vt100`), whose numbers are 32-bit ints
  that wrap around, and **the network loader** (`NetbootState`, `NetbootSender`, `Netboot`, `Checksum`). `VtControls`
  says of every control byte and every control sequence what it does.

Where the code does not do what it seems to be for, the model keeps the code:

* With a load of six sevenths or more, seven insertions fill the smallest table without a rebuild, and then the loop
  that looks for a missing key never ends (`HashTable.FillSmallest`). It ends exactly when a slot is free
  (`HashSlots.MissEndsExactly`), which every table below that load keeps.
* `locate_span` can return a run that is too short when none is long enough (`Spans.TooShortAtTheEnd`).
* `area_resize` grows by whole pages rounded down, and fails when less than one page is missing.
* ESC 8 restores the attribute but leaves the cursor where it is (`VtRuns.EscapeRestoresAttributeOnly`); only the
  control sequence `u` restores the cursor (`VtRuns.RestoreUndoesMoves`).
* A region command can leave a scroll region without rows (`VtRuns.RegionCanBeEmptied`), and a deletion whose count
  has wrapped around can write behind the array (`VtRuns.DeletionCanStray`). `VtRuns.RunValid` says exactly which texts
  keep the screen well formed after every byte, and `VtRuns.TameValid` when that can be told from the text alone.
* Negative numbers are rounded the wrong way: a sum of ten digits is the opposite of its counterpart exactly when its
  last digit is below five (`DecimalOps.NegativeSum`). A text with an exponent of 10000 or more overflows even when its
  value is in range (`DecimalReading.ExponentTooBig`).
* A space after a shift is decoded as the character 0 (`ZText.ShiftedSpace`).
* Block numbers of the loader are sixteen bits wide. `NetbootState.ExecMeansLoaded` says exactly for which files all
  blocks end up in place, and `NetbootState.BigFileSpoilt` gives a run on one for which they do not.

## Model

| member | source | states |
|---|---|---|
| MallocFit.RequestToSize | openblt/lib/libc/malloc.c:1012-1016 | a request gets the least multiple of 8, at least 16, with room for it and a size word |
| MallocFit.BinIndexMonotone | openblt/lib/libc/malloc.c:1201-1208 | larger chunks never have smaller bins |
| MallocFit.BinIndexRange | openblt/lib/libc/malloc.c:1201-1224 | every chunk size has a bin from 2 to 126, and exactly the small sizes have small bins |
| MallocHeap.Heap.CoveredOnce | openblt/lib/libc/malloc.c:880-990 | in a tiled heap every address lies in exactly one chunk |
| MallocFit.NoneMarked | openblt/lib/libc/malloc.c:1885-1887 | when the mark of a block exceeds the binblocks word, no later block is marked |
| MallocSearch.BinsAround | openblt/lib/libc/malloc.c:1201-1208 | bins of smaller index hold only smaller chunks, and those of larger index only larger ones |
| MallocSearch.SkipBlock | openblt/lib/libc/malloc.c:1888-1900 | skipping an unmarked block passes no chunk that fits, and a later block is marked |
| MallocSearch.NothingLeft | openblt/lib/libc/malloc.c:1957-1970 | past the last marked block no binned chunk fits |
| MallocSearch.FitIsSmallest | openblt/lib/libc/malloc.c:1902-1942 | the last fitting chunk of the first bin that has one is the smallest binned chunk that fits |
| MallocSearch.ClearMark | openblt/lib/libc/malloc.c:1944-1955 | clearing the mark of a block whose bins are empty keeps every nonempty bin marked |
| MallocState.InsertKept | openblt/lib/libc/malloc.c:1421-1448 | linking a free chunk in changes no tag and no payload of a block in use |
| MallocState.UnlinkKept | openblt/lib/libc/malloc.c:1452-1458 | unlinking a chunk changes no tag and no payload of a block in use |
| MallocSteps.SplitTagged | openblt/lib/libc/malloc.c:1918-1928 | putting the front of a free chunk in use and heading the rest keeps every boundary tag true |
| MallocSteps.GrowDone | openblt/lib/libc/malloc.c:1640-1646 | when the break moves up and top's header is rewritten, the heap is in order again |
| MallocFree.AroundJoined | openblt/lib/libc/malloc.c:2085-2109 | after coalescing the chunk before is in use, and so is the one after unless it is top |
| MallocFree.FreedGood | openblt/lib/libc/malloc.c:2060-2114 | once the joined chunk is tagged and filed, or is top, the whole heap is in order again |
| MallocResize.InsideKept | openblt/lib/libc/malloc.c:2292-2301 | whatever is stored inside a block in use, the heap stays in order and all other blocks keep their contents |
| MallocResize.SettleCut | openblt/lib/libc/malloc.c:2328-2343 | cutting a block in use leaves two blocks in use in a heap in order |
| MallocHeapManager.BlocksApart | openblt/lib/libc/malloc.c:1772-2115 | two blocks in use never overlap |
| MallocHeapManager.Allocator.constructor | openblt/lib/libc/malloc.c:1172-1190 | the loaded allocator is in order, with no block in use |
| MallocHeapManager.Allocator.Store | openblt/lib/libc/malloc.c:932-990 | a program that writes into its own block disturbs neither the heap nor another block |
| MallocHeapManager.Allocator.Frontlink | openblt/lib/libc/malloc.c:1421-1448 | the chunk is filed in its bin in size order and its block is marked |
| MallocHeapManager.Allocator.ScanBins | openblt/lib/libc/malloc.c:1885-1970 | finds the smallest binned chunk from the start bin on that fits, or none fits; marks stay true |
| MallocHeapManager.Allocator.ClearIfEmpty | openblt/lib/libc/malloc.c:1944-1955 | a block found empty, going back over the bins before the start, may be unmarked; no nonempty bin loses its mark |
| MallocHeapManager.Allocator.TryRemainder | openblt/lib/libc/malloc.c:1850-1878 | the last remainder is cut, used up, or filed in its bin when it is too small |
| MallocHeapManager.Allocator.FromChunks | openblt/lib/libc/malloc.c:1790-1970 | a chunk is served whenever a binned chunk or the last remainder fits; one from the bins is the best fit |
| MallocHeapManager.Allocator.ExtendTop | openblt/lib/libc/malloc.c:1606-1722 | the heap stays in order when sbrk gives memory or refuses, and nothing but top grows; unless sbrk refused, top can give what was asked and remain, and if it refused the heap is as it was |
| MallocHeapManager.Allocator.FromTop | openblt/lib/libc/malloc.c:1973-2000 | the block comes from the front of top; the result is null if and only if sbrk was asked and refused, never while top has the bytes and 16 more, and then the heap is as it was |
| MallocHeapManager.Allocator.Malloc | openblt/lib/libc/malloc.c:1772-2001 | the heap stays in order; a block new to the program, of the padded size and less than 16 bytes more, is the best fit of the bins, or the last remainder when there is no exact fit, or the front of top when no chunk fits; other blocks keep place, size and contents; the result is null if and only if sbrk refused in this call, and then no chunk fits, top is too small and the heap is as it was |
| MallocHeapManager.Allocator.Free | openblt/lib/libc/malloc.c:2030-2115 | exactly this block is given back, the heap is in order, and all other blocks keep place, size and contents |
| MallocHeapManager.Allocator.CopyWords | openblt/lib/libc/malloc.c:369-408 | a word-by-word copy is exact even when the destination comes first and overlaps |
| MallocHeapManager.Allocator.GrowInPlace | openblt/lib/libc/malloc.c:2214-2302 | growing forward, into top, backward or both ways brings the contents along and changes no other block; the block stays where it is if and only if the chunk after it or top has the room, and nothing happens if and only if the free neighbours together have none |
| MallocHeapManager.Allocator.GrowElsewhere | openblt/lib/libc/malloc.c:2304-2324 | allocating, copying and freeing, or joining the new block when it follows the old one, brings the contents along; if and only if sbrk refused there is no block, and the old one is untouched |
| MallocHeapManager.Allocator.SplitBlock | openblt/lib/libc/malloc.c:2328-2347 | what is over becomes a chunk and is given back when it is large enough; the block keeps its contents |
| MallocHeapManager.Allocator.Realloc | openblt/lib/libc/malloc.c:2154-2347 | the block, perhaps moved, has the new size and all words of the smaller of both sizes; no other block changes; a block that is big enough, or can grow forward, stays; the result is null if and only if sbrk refused, and then the block had to grow, its neighbours have no room, no chunk fits, top is too small and the heap is as it was |
| HashProbe.NoEarlyMultiple | openblt/lib/libblt/hash.c:72-89 | no multiple of the step below the p-th is a multiple of the prime size p |
| HashProbe.ProbeClosed | openblt/lib/libblt/hash.c:120-127 | stepping back and wrapping around j times is subtracting j steps modulo the size |
| HashProbe.ProbeDistinct | openblt/lib/libblt/hash.c:120-127 | a probe does not return to a slot before it has made as many steps as there are slots |
| HashProbe.ProbeCovers | openblt/lib/libblt/hash.c:120-127 | every slot is on every key's probe |
| HashSlots.PutHolds | openblt/lib/libblt/hash.c:128-134 | filling the first slot that is free or abandoned at the end of a path in use adds the entry to the map |
| HashSlots.DropHolds | openblt/lib/libblt/hash.c:200-206 | abandoning a slot removes its key and no other; the slot stays on other keys' paths |
| HashSlots.NotMissed | openblt/lib/libblt/hash.c:173-186 | a probe that meets a slot not in use has passed the key if it is there |
| HashTable.RoomExactly | openblt/lib/libblt/hash.c:115-127 | the threshold: what an insertion without rebuild leaves free is at least one slot, in tables of every size, if and only if the load is below six sevenths |
| HashTable.FillSmallest | openblt/lib/libblt/hash.c:111-190 | from a load of six sevenths on, seven insertions into a new table rebuild nothing and leave every slot in use; then for every missing key every slot on its probe is in use and does not hold it, so the lookup loop never ends |
| HashSlots.MissEndsExactly | openblt/lib/libblt/hash.c:169-190 | the loop that looks for a missing key comes to its end if and only if some slot is free |
| HashTable.Table.constructor | openblt/lib/libblt/hash.c:91-104 | a new table stands for the empty map |
| HashTable.Table.FindFree | openblt/lib/libblt/hash.c:118-127 | the probe ends at a slot that is free or abandoned, with all slots before it in use |
| HashTable.Table.Insert | openblt/lib/libblt/hash.c:111-135 | a fresh key is added to the map; the recursion with rebuild ends, a shrink that regrows included |
| HashTable.Table.Rebuild | openblt/lib/libblt/hash.c:137-167 | a table of the next or previous size holds the same map and no abandoned slot |
| HashTable.Table.Lookup | openblt/lib/libblt/hash.c:169-190 | returns what the map holds under the key, zeros when nothing |
| HashTable.Table.Remove | openblt/lib/libblt/hash.c:192-220 | removes exactly this key from the map and returns its entry; a shrink leaves few abandoned slots |
| QSort.Med3 | openblt/lib/libc/qsort.c:83-91 | the index of a median of the three |
| QSort.VecSwap | openblt/lib/libc/qsort.c:48-81 | two disjoint stretches change places, and nothing else moves |
| QSort.InsertionSort | openblt/lib/libc/qsort.c:105-111 | the range is sorted and reordered only within itself |
| QSort.ChoosePivot | openblt/lib/libc/qsort.c:112-123 | the pivot lies in the range, and for 8 to 40 elements it is a median of two sampled elements at least |
| QSort.Partition | openblt/lib/libc/qsort.c:124-151 | the four regions equal, less, greater, equal around the pivot, by swaps within the range; if nothing was swapped the range was already parted |
| QSort.Gather | openblt/lib/libc/qsort.c:160-164 | both vector swaps bring the equal elements between the smaller and the greater ones |
| QSort.Divide | openblt/lib/libc/qsort.c:112-167 | smaller elements first, greater ones last, equal ones between; together the two outer parts are smaller than the range |
| QSort.Sort | openblt/lib/libc/qsort.c:93-174 | for every array and total preorder the range ends sorted, a permutation of itself, all else unmoved; recursion and loop end |
| KernelList.LinkedIn | openblt/kernel/list.c:108-124 | linking a node in at position k inserts it into one ring and leaves all other rings |
| KernelList.LinkedOut | openblt/kernel/list.c:126-165 | linking the node at position k out removes it from one ring and leaves all other rings |
| KernelList.Lists.Init | openblt/kernel/list.c:10-15 | the list is empty |
| KernelList.Lists.AttachHead | openblt/kernel/list.c:108-115 | the node is put in front of the sequence |
| KernelList.Lists.AttachTail | openblt/kernel/list.c:117-124 | the node is put at the end of the sequence |
| KernelList.Lists.DetachHead | openblt/kernel/list.c:126-137 | the first node leaves the sequence and is in no list |
| KernelList.Lists.DetachTail | openblt/kernel/list.c:139-150 | the last node leaves the sequence and is in no list |
| KernelList.Lists.Detach | openblt/kernel/list.c:152-165 | the first node with that data leaves the sequence, if there is one |
| ResourceIds.Table.Bind | openblt/kernel/resource.c:73-96 | the resource gets an id that no resource had; all other ids keep theirs |
| ResourceIds.Table.Release | openblt/kernel/resource.c:98-119 | the id is unbound, no other is, and it is the next to be given out |
| ResourceIds.Table.Find | openblt/kernel/resource.c:44-51 | finds exactly the bound resources of the asked type |
| ResourceIds.Table.NoIdLost | openblt/kernel/resource.c:73-119 | free and bound ids are always all ids, so binding panics exactly when all are bound |
| KernelState.OneQueue | openblt/kernel/resource.c:144-160 | no task is on two queues or twice on one; neither the running nor the idle task is on any |
| KernelSafety.WakeAllBut | openblt/kernel/resource.c:111-114 | all that wait on a released resource move, in order, to the end of the run queue |
| KernelSafety.SwtchKeeps | openblt/kernel/kernel.c:196-230 | unless the machine halts, the first in line or the idle task runs, and no runnable task is dropped |
| KernelSteps.PreemptKeeps | openblt/kernel/kernel.c:175-194 | the preempted task goes on the run queue, and every task stays accounted for |
| KernelSteps.SemAcquireKeeps | openblt/kernel/sem.c:29-45 | acquiring keeps the invariant; without a permit the caller joins the end of the queue |
| KernelSteps.SemReleaseKeeps | openblt/kernel/sem.c:47-64 | releasing keeps the invariant; the head of the queue runs |
| KernelSteps.TerminateKeeps | openblt/kernel/syscall.c:35-53 | a dying task is on the reaper's queue, those that waited on it are runnable, and the rest is as before |
| KernelSteps.ReapKeeps | openblt/kernel/task.c:30-48 | destroying the first dead task wakes all that waited on it and leaves nothing of it |
| KernelSteps.StepKeeps | openblt/kernel/kernel.c:175-230 | each step keeps each task on exactly the queue it waits on, or running, idle or asleep, and each semaphore with as many queued tasks as its count is below zero |
| KernelSteps.RunStable | openblt/kernel/sem.c:9-64 | so it is in every state of every run that does not halt |
| KernelSteps.StepPasses | openblt/kernel/sem.c:29-64 | a semaphore's queue is joined only at the end and left only at the front |
| KernelSteps.FirstComeFirstServed | openblt/kernel/sem.c:29-64 | over any run, tasks are granted permits in the order in which they came |
| KernelSteps.YieldTurn | openblt/kernel/kernel.c:196-230 | giving up the processor runs the first in line and queues the one that ran last |
| KernelSteps.RoundRobin | openblt/kernel/kernel.c:196-230 | the task in the k-th place of the run queue runs after k more turns and one |
| KernelLaws.SemCreateMeans | openblt/kernel/sem.c:9-16 | a new semaphore has its count and an empty queue; nothing else changes |
| KernelLaws.SemDestroyMeans | openblt/kernel/sem.c:18-27 | the id is gone from both tables; the old queue, in order, follows the run queue, each of its tasks with the status of a lost resource; no other queue, semaphore or task changes, and the caller runs on |
| KernelLaws.SemAcquireMeans | openblt/kernel/sem.c:29-45 | with a permit only the count changes; without one the caller is last on the queue with status 0, and the first in line runs, or the idle task, or the machine halts |
| KernelLaws.SemReleaseMeans | openblt/kernel/sem.c:47-64 | the count goes up; with nobody waiting nothing else changes, else the first waiter runs at once with status 0, and the caller, unless idle, is last on the run queue |
| KernelLaws.ThrWaitMeans | openblt/kernel/task.c:119-129 | the caller is last on the queue of the thread it waits for, and the next in line runs; for an unknown thread nothing happens |
| KernelLaws.SpawnMeans | openblt/kernel/task.c:131-165 | the new task is last on the run queue with an empty queue of its own; one more task lives |
| KernelLaws.QueueCreateMeans | openblt/kernel/resource.c:65-71 | a new queue is empty; nothing else changes |
| KernelLaws.QueueDestroyMeans | openblt/kernel/resource.c:98-119 | the queue is gone, and its tasks, in order, follow the run queue with the status of a lost resource |
| KernelLaws.BlockMeans | openblt/kernel/task.c:21-28 | the caller is last on the queue with status 0, and the next in line runs; nothing else changes |
| KernelLaws.WakeOneMeans | openblt/kernel/port.c:186-188 | the first waiter moves to the end of the run queue with status 0; nothing else changes, and the caller runs on |
| KernelLaws.YieldMeans | openblt/kernel/kernel.c:196-230 | the first in line runs and the caller, unless idle, is last; with nobody in line nothing changes |
| KernelLaws.SleepForIrqMeans | openblt/kernel/syscall.c:107-114 | the caller sleeps on no queue, and the next in line runs |
| KernelLaws.IrqMeans | openblt/kernel/fault.c:162-170 | a task that sleeps for the interrupt runs at once with status 0, and the one that ran, unless idle, is last on the run queue; otherwise nothing changes |
| KernelLaws.TerminateMeans | openblt/kernel/syscall.c:35-53 | the dying task is last on the reaper's queue and marked dead; those that waited for it, then the reaper, follow the run queue; the reaper's semaphore is counted up; the first in line runs |
| KernelLaws.TerminateWakes | openblt/kernel/syscall.c:35-53 | those that waited for the dying task find the status of a lost resource, the reaper finds 0, and all other tasks are as they were |
| KernelLaws.ReapMeans | openblt/kernel/task.c:30-48 | the first dead task is in no table any more; those that waited for it follow the run queue with the status of a lost resource; nothing else changes |
| KernelFunctions.Kernel.constructor | openblt/kernel/kernel.c:337-383 | the first state, in which the reaper runs and the pager is next, meets the invariant |
| KernelFunctions.Kernel.RsrcEnqueue | openblt/kernel/resource.c:144-150 | the task is last on the queue its waiting_on names |
| KernelFunctions.Kernel.RsrcDequeue | openblt/kernel/resource.c:152-160 | the first task leaves the queue, ready and waiting on nothing |
| KernelFunctions.Kernel.PreemptBy | openblt/kernel/kernel.c:175-194 | the given task runs, and the one that ran is last on the run queue unless it is the idle task |
| KernelFunctions.Kernel.Switch | openblt/kernel/kernel.c:196-230 | does what the switching step of the proved system does |
| KernelFunctions.Kernel.WaitOnRsrc | openblt/kernel/task.c:21-28 | the running task waits on the resource and another one runs |
| KernelFunctions.Kernel.WakeWaiters | openblt/kernel/resource.c:111-114 | the loop wakes all that wait, in order, and ends |
| KernelFunctions.Kernel.CreateSem | openblt/kernel/sem.c:9-16 | a step of the proved system: a semaphore with an empty queue |
| KernelFunctions.Kernel.DestroySem | openblt/kernel/sem.c:18-27 | the semaphore is in neither table; its queue, in order, has joined the run queue, each task with the status of a lost resource; no other queue changes; an unknown id is an error and changes nothing |
| KernelFunctions.Kernel.AcquireSem | openblt/kernel/sem.c:29-45 | a step of the proved system: blocks exactly when the count is not positive |
| KernelFunctions.Kernel.ReleaseSem | openblt/kernel/sem.c:47-64 | a step of the proved system: the task that waited longest runs at once |
| KernelFunctions.Kernel.DispatchIrq | openblt/kernel/fault.c:162-170 | a step of the proved system: only a task that sleeps for the interrupt is run |
| KernelFunctions.Kernel.WakeTheReaper | openblt/kernel/syscall.c:27-33 | the reaper's semaphore is counted up and its waiter made runnable without a switch |
| KernelFunctions.Kernel.TerminateCurrent | openblt/kernel/syscall.c:35-53 | a step of the proved system |
| KernelFunctions.Kernel.ReapTask | openblt/kernel/kernel.c:77-89 | a step of the proved system |
| Qsem.StepKeeps | openblt/lib/libc/qsem.c:57-77 | every atomic addition and kernel call keeps count, kernel count, queue and threads in balance |
| Qsem.PermitsConserved | openblt/lib/libc/qsem.c:57-77 | in every state of every run, holders, permits on their way and the positive count make n; so at most n hold |
| Qsem.NobodyStranded | openblt/lib/libc/qsem.c:57-77 | with no release under way a thread is queued only if all n permits are held; with a count that is not negative each waiting thread is owed a release under way |
| PortState.StepKeeps | openblt/kernel/port.c:135-232 | at one port every stretch of a send or receive keeps the queue bounded, the wait queues true and no wakeup lost |
| PortTable.RunValid | openblt/kernel/port.c:104-232 | in every run over a table of ports with fixed slave links each port keeps that, and all it holds was sent to it or to a slave of it |
| PortTable.InOrderOnce | openblt/kernel/port.c:145-232 | at each port what was received and what is queued is what was accepted, once each and in order, and at most 16 are queued |
| PortTable.NoLostWakeup | openblt/kernel/port.c:128-232 | at each port, once its woken tasks have run, receivers wait only if it is empty and senders only if it is full |
| PortTable.AcceptedComeOut | openblt/kernel/port.c:128-232 | over a whole run the messages received or queued at a port are exactly those its steps accepted, in that order |
| PortTable.SlaveServed | openblt/kernel/port.c:127-133 | a message sent to a slave whose master has room is accepted by the master and by no other port, so it comes out once, there |
| PortTable.OnlyItsOwn | openblt/kernel/port.c:127-133 | whatever is queued or comes out at a port was sent to it or to a slave of it, and the port is no slave |
| PortTable.SlavesStayEmpty | openblt/kernel/port.c:127-133 | nothing is ever queued at a slave itself |
| PortScheduling.SendSchedules | openblt/kernel/port.c:135-189 | a stretch of port_send by the running task is, for the scheduler, one wait on the queue of senders, one wake at the port, or nothing; then again the queues of both models are the same |
| PortScheduling.ReceiveSchedules | openblt/kernel/port.c:211-232 | the same for port_recv, with the two queues exchanged |
| PortFunctions.Port.PortSend | openblt/kernel/port.c:135-190 | once the port is known: a step of the proved system, with the returned code; only a message too long or too far up is refused |
| PortFunctions.Port.PortRecv | openblt/kernel/port.c:211-242 | once the port is known: a step of the proved system; the first message, as much of it as the buffer takes, with sender and code |
| PortFunctions.Ports.FindTarget | openblt/kernel/port.c:110-133 | the destination, or its master when it is slaved; which of the three is missing otherwise |
| PortFunctions.Ports.PortSend | openblt/kernel/port.c:104-191 | a step of the proved table of ports, with all error codes: no source, no destination, no master or one that is slaved itself, full, refused; a call that fails changes nothing |
| PortFunctions.Ports.PortRecv | openblt/kernel/port.c:194-243 | a step of the proved table of ports on the named port itself, with all error codes |
| PortFunctions.Ports.SendOn | openblt/kernel/port.c:135-190 | a woken sender goes on as a step of the proved table of ports |
| PortFunctions.Ports.ReceiveOn | openblt/kernel/port.c:211-242 | a woken receiver goes on as a step of the proved table of ports |
| PortFunctions.Ports.constructor | openblt/kernel/port.c:14-36 | a table without ports is in order |
| PortFunctions.Ports.PortCreate | openblt/kernel/port.c:14-36 | a new port is empty, and the others are as before |
| Spans.LocateSpan | openblt/kernel/aspace.c:130-150 | the first free span of the asked length; when there is none, 0 or the too short run at the end of the table |
| Spans.TooShortAtTheEnd | openblt/kernel/aspace.c:139-149 | on a table with two free pages at its end a search for three pages returns page 1022, where three are not free |
| PageGroups.CreateValid | openblt/kernel/aspace.c:153-230 | a new area and group keep mapped areas apart, references counted, and each page in exactly one place |
| PageGroups.CloneValid | openblt/kernel/aspace.c:294-348 | another area of a group keeps all that |
| PageGroups.ReleaseValid | openblt/kernel/aspace.c:350-393 | an area goes while others share its group: all that holds, and no page is freed |
| PageGroups.DestroyValid | openblt/kernel/aspace.c:350-393 | the last area goes: its group's pages are free, once each, and all that holds |
| PageGroups.ExtendValid | openblt/kernel/aspace.c:395-447 | an only area that grows keeps all that |
| AddressSpaces.Memory.constructor | openblt/kernel/memory.c:242-248 | the loop chains exactly the pages from the bottom to the top one; with nothing mapped the invariant holds |
| AddressSpaces.Memory.PutPage | openblt/kernel/memory.c:128-135 | the page becomes the first of the free list |
| AddressSpaces.Memory.GetPage | openblt/kernel/memory.c:137-150 | the first page of the free list is taken |
| AddressSpaces.Memory.AreaCreate | openblt/kernel/aspace.c:153-230 | the invariant holds; the first span that fits maps the first free pages, or nothing changes and the call fails |
| AddressSpaces.Memory.AreaClone | openblt/kernel/aspace.c:294-348 | the invariant holds; the same pages are mapped again and the group has one reference more |
| AddressSpaces.Memory.AreaDestroy | openblt/kernel/aspace.c:350-393 | the invariant holds; the entries are cleared, and the pages are freed exactly when it was the last area |
| AddressSpaces.Memory.PutPages | openblt/kernel/aspace.c:374-385 | walking the six-slot chain frees each page once, in order |
| AddressSpaces.Memory.AreaResize | openblt/kernel/aspace.c:395-447 | the invariant holds; the area grows by the next free pages at its end, or nothing changes; it fails when less than a page is missing |
| AddressSpaces.Memory.GrowChain | openblt/kernel/aspace.c:422-444 | new pages follow the old ones in the chain, which gets a node whenever the last is full |
| KernelPools.CarveNext | openblt/kernel/memory.c:271-280 | cutting off the next block of the fresh page adds that block and no other |
| KernelPools.Pool.KmallocP | openblt/kernel/memory.c:257-289 | hands out a block nobody holds, a freed one first; the counters stay the numbers of blocks |
| KernelPools.Pool.KfreeP | openblt/kernel/memory.c:291-302 | exactly this block is free again, and the next to be handed out |
| KernelPools.Pool.LiveApart | openblt/kernel/memory.c:257-302 | blocks in use never overlap, and each lies within a page of its pool |
| ZObjects.PutTree | hiptop/zmachine/ZMachine.java:40-75 | in either layout storing a link changes that link of the tree and nothing else but links |
| ZObjects.RemovedForest | hiptop/zmachine/ZMachine.java:76-103 | removing keeps a forest whose child chains match the parent fields, and takes only the object from its parent's children |
| ZObjects.InsertedForest | hiptop/zmachine/ZMachine.java:104-116 | inserting below a place outside the object keeps the forest, with the object as first child |
| ZObjects.NoLinksForest | hiptop/zmachine/ZMachine.java:40-75 | in either layout a table without links is a forest |
| ZObjects.Objects.constructor | hiptop/zmachine/ZMachine.java:1696-1702 | a loaded story whose table is a forest meets the invariant |
| ZObjects.Objects.Unchain | hiptop/zmachine/ZMachine.java:84-100 | whatever led to the object leads to its sibling |
| ZObjects.Objects.Remove | hiptop/zmachine/ZMachine.java:319-346 | in byte memory, narrow or wide: the tree is the old one without the object below its parent; no other parent changes; without a parent memory is untouched |
| ZObjects.Objects.Insert | hiptop/zmachine/ZMachine.java:347-359 | in byte memory, narrow or wide: the object is the first child of its new place, and the forest stays well formed |
| ZStack.RunStacked | hiptop/zmachine/ZMachine.java:1169-1255 | in every run every frame has bp <= sp, and a callee's bp is its caller's sp |
| ZStack.CallerUntouched | hiptop/zmachine/ZMachine.java:1169-1255 | until a call has returned, the caller's frame, all below it, and the stack below its top stay as they were |
| ZStack.ResKept | hiptop/zmachine/ZMachine.java:1215-1250 | the frame a call made remembers where its result goes |
| ZStack.CallReturns | hiptop/zmachine/ZMachine.java:1244-1255 | from a call to its return the caller's pc, locals, bp and stack are unchanged but for the variable the result goes to |
| ZStack.CalleeFinds | hiptop/zmachine/ZMachine.java:1169-1242 | a call that enters a routine adds one frame above the caller's stack, behind the routine's header: local k is the k-th argument if that was passed and there is such a local, and the other locals are the header's words, or 0 in version 5 |
| ZStack.LoadAfterStore | hiptop/zmachine/ZMachine.java:574-626 | a variable that was stored to is loaded as that word; on the stack the load takes it off again |
| ZStack.LoadOther | hiptop/zmachine/ZMachine.java:574-626 | storing to one variable changes no other local or global |
| ZCalls.Machine.constructor | hiptop/zmachine/ZMachine.java:1576-1581 | the machine with its one first frame and an empty stack meets the invariant |
| ZCalls.Machine.LoadVar | hiptop/zmachine/ZMachine.java:574-603 | pops the top of the stack, reads a local, or reads a global's two bytes, high byte first; the machine dies in the cases of the specification |
| ZCalls.Machine.StoreVar | hiptop/zmachine/ZMachine.java:605-626 | the low sixteen bits are pushed, put into a local, or into a global's two bytes, high byte first; the machine dies in the cases of the specification |
| ZCalls.Machine.OpCall | hiptop/zmachine/ZMachine.java:1169-1242 | local k of the new frame is the k-th argument if that was passed and there is such a local, the others are the header's words or 0 in version 5; memory, stack and older frames stay; calling 0 only stores 0 |
| ZCalls.Machine.ReturnFrom | hiptop/zmachine/ZMachine.java:1244-1255 | the frame goes and the result is stored as in the specification |
| ZText.FitIsLongest | hiptop/zmachine/ZMachine.java:1343-1388 | the prefix kept is the longest whose encoding fits |
| ZText.SpaceMeans | hiptop/zmachine/ZMachine.java:1477-1492 | Z-character 0 is a space |
| ZText.LetterMeans | hiptop/zmachine/ZMachine.java:1477-1492 | Z-characters 6 to 31 are the small letters in order |
| ZText.CapitalMeans | hiptop/zmachine/ZMachine.java:1484-1507 | after 4 the next one is a capital, and only that one |
| ZText.MarkMeans | hiptop/zmachine/ZMachine.java:1487-1525 | after 5 the next one is of the last row: line feed, digits and marks in order |
| ZText.LastShift | hiptop/zmachine/ZMachine.java:1493-1522 | of two shifts in a row the second counts |
| ZText.AbbreviationMeans | hiptop/zmachine/ZMachine.java:1526-1533 | 1 to 3 and the one after it name one of 96 abbreviations, whose text is put in |
| ZText.EscapeMeans | hiptop/zmachine/ZMachine.java:1519-1541 | after 5 and 6 two Z-characters are the high and low five bits of a character |
| ZText.ShiftedSpace | hiptop/zmachine/ZMachine.java:1547-1554 | a space after a shift comes out as the character 0, where the Standard has a space |
| ZText.ReadBack | hiptop/zmachine/ZMachine.java:1477-1545 | reading the Z-characters of a word gives its longest prefix that fits, in lower case |
| ZText.UnpackPack | hiptop/zmachine/ZMachine.java:1462-1476 | unpacking words of three Z-characters undoes packing, up to the end mark, whatever follows |
| ZText.KeyReadsBack | hiptop/zmachine/ZMachine.java:1343-1440 | decoding a packed key gives the longest prefix of the lower-cased word that fits in 6 or 9 Z-characters |
| ZText.SameKey | hiptop/zmachine/ZMachine.java:1343-1388 | two words have the same key exactly when their kept prefixes agree but for case |
| ZDictionary.Encode | hiptop/zmachine/ZMachine.java:1343-1388 | the loop writes exactly the Z-characters of the word, cut off or filled up |
| ZDictionary.PackInPlace | hiptop/zmachine/ZMachine.java:1400-1412 | packing within the one buffer overwrites nothing still needed |
| ZDictionary.Search | hiptop/zmachine/ZMachine.java:1414-1435 | on a sorted dictionary binary search returns a matching entry, and 0 exactly when there is none |
| ZDictionary.FindToken | hiptop/zmachine/ZMachine.java:1389-1440 | the parse record gets the entry of the word's key, its length and its place, and nothing else in memory changes |
| ZDictionary.ReadText | hiptop/zmachine/ZMachine.java:1462-1545 | the loop over words reads what the specification reads and stops after the end mark |
| Decimal.MakeExact | hiptop/rpn/hipfloat.java:918-951 | a value that can be represented comes out exactly, however it is written |
| Decimal.MakeNearest | hiptop/rpn/hipfloat.java:67-102 | a long mantissa that is not negative becomes the nearest nine-digit number, halves up, unless it overflows or drops to the least exponent |
| DecimalOps.MulNearest | hiptop/rpn/hipfloat.java:227-241 | unless it overflows or drops to the least exponent, the product of numbers that are not negative is the exact one rounded half up to nine digits; the long does not overflow |
| DecimalOps.AddClose | hiptop/rpn/hipfloat.java:185-225 | unless it overflows, the sum of positive numbers is within 11/20 of a unit in its last place |
| DecimalOps.AddOrdered | hiptop/rpn/hipfloat.java:185-225 | the same when the larger exponent comes first, and the int sum does not overflow |
| DecimalOps.AddExact | hiptop/rpn/hipfloat.java:185-225 | for any signs the sum is exact when it can be represented and lining up drops only zeros, as it does with equal exponents; opposite numbers give zero |
| DecimalOps.MulExact | hiptop/rpn/hipfloat.java:227-241 | for any signs the product is exact when it can be represented |
| DecimalOps.NegativeSum | hiptop/rpn/hipfloat.java:918-951 | a negative sum of ten digits is the opposite of the positive one if and only if its last digit is below five |
| DecimalText.MulTen | hiptop/rpn/hipfloat.java:861-862 | while digits are read, multiplying by ten is exact |
| DecimalText.AddDigit | hiptop/rpn/hipfloat.java:861-866 | while digits are read, adding one at any place is exact |
| DecimalRoundTrip.RoundTrip | hiptop/rpn/hipfloat.java:700-916 | for every number in range, underflowed ones included, and both modes, parsing what was printed gives the same mantissa and exponent |
| DecimalRoundTrip.PrintForm | hiptop/rpn/hipfloat.java:700-810 | a number is printed with an exponent if and only if that is asked for, or it is 10^9 or more, or it is below a tenth and has digits beyond the eighth place behind the point |
| DecimalReading.PlusRead | hiptop/rpn/hipfloat.java:847-858 | a plus in front changes nothing |
| DecimalReading.ExponentPlusRead | hiptop/rpn/hipfloat.java:878-890 | an exponent without a sign is a positive one, first digit included, whatever stands before it |
| DecimalReading.CapitalRead | hiptop/rpn/hipfloat.java:870-871 | E is as good as e |
| DecimalReading.TextRead | hiptop/rpn/hipfloat.java:827-916 | a text with any sign, digits that make a number below 10^9, at most ten of them behind the point, and an exponent from -10000 to 9999 reads as the value it writes whenever that can be represented |
| DecimalReading.ZeroRead | hiptop/rpn/hipfloat.java:827-916 | a zero, however written, reads as zero |
| DecimalReading.ExponentTooBig | hiptop/rpn/hipfloat.java:889-895 | an exponent of 10000, or a larger one of either sign, overflows even when the value is in range |
| DecimalReading.JunkRefused | hiptop/rpn/hipfloat.java:872-899 | a text with any other character is not a number, unless it was refused before |
| DecimalReading.SecondPointRefused | hiptop/rpn/hipfloat.java:869-873 | nor is one with a second point |
| DecimalMethods.Normalize | hiptop/rpn/hipfloat.java:918-951 | the loops end with the number the specification makes, or overflow when it does |
| DecimalMethods.AddNumbers | hiptop/rpn/hipfloat.java:185-225 | the loops and the swapped call end with the specified sum |
| DecimalMethods.ToCharArray | hiptop/rpn/hipfloat.java:700-810 | the buffer holds exactly the printed text, within its 64 characters |
| DecimalMethods.FromString | hiptop/rpn/hipfloat.java:827-916 | the character loop reads exactly the parsed number, or reports the same errors; what that is for a given text is said by the members of `DecimalReading` |
| VtRuns.RegionObeyed | openblt/srv/console2/vt100.c:178-186 | a region command leaves at least one row in the region if and only if it is ignored, or it ends at row 1 or below, starts on the screen and its first number is not the least int |
| VtRuns.StepValid | openblt/srv/console2/vt100.c:209-463 | one byte keeps the cursor in the grid, the region proper and all accesses in the array, if and only if it completes neither a region command that empties the region nor a deletion that reaches outside the array |
| VtRuns.RunValid | openblt/srv/console2/vt100.c:209-463 | the screen is well formed after every byte of a text if and only if no byte of the text does such harm where it is met |
| VtRuns.TameValid | openblt/srv/console2/vt100.c:305-319 | when no number in the text comes within a row of 2^31, the text and the height alone decide: the screen is well formed after every byte if and only if no region command empties the region |
| VtRuns.CursorStays | openblt/srv/console2/vt100.c:92-108 | so the cursor is in the grid, and every access was in the array, after every byte of a text that does no harm |
| VtRuns.ReadsBack | openblt/srv/console2/vt100.c:305-319 | parameters written in decimal are read back as 32-bit ints hold them, the first sixteen of them |
| VtRuns.ControlObeyed | openblt/srv/console2/vt100.c:305-463 | a control sequence written out is read as its final byte and the first sixteen parameters, as ints hold them, and ordinary text follows; what each final byte does is said by the members of `VtControls` |
| VtRuns.CursorAddressed | openblt/srv/console2/vt100.c:364-375 | the cursor goes to the row and column named, as ints hold them, or as near as the grid allows, and nothing else changes |
| VtControls.CursorUp | openblt/srv/console2/vt100.c:332-334 | ESC [ n A: up n rows, as ints hold the difference, or as far as the grid goes; only the cursor moves |
| VtControls.CursorDown | openblt/srv/console2/vt100.c:335-338 | ESC [ n B and e: down n rows |
| VtControls.CursorRight | openblt/srv/console2/vt100.c:328-331 | ESC [ n C and a: right n columns |
| VtControls.CursorLeft | openblt/srv/console2/vt100.c:325-327 | ESC [ n D: left n columns |
| VtControls.LinesDown | openblt/srv/console2/vt100.c:348-351 | ESC [ n E: down n rows and to the first column |
| VtControls.LinesUp | openblt/srv/console2/vt100.c:352-355 | ESC [ n F: up n rows and to the first column |
| VtControls.ColumnAddressed | openblt/srv/console2/vt100.c:339-347 | ESC [ n G and the backquote: to column n, counted from one; the row stays |
| VtControls.RowAddressed | openblt/srv/console2/vt100.c:356-363 | ESC [ n d: to row n, counted from one; the column stays |
| VtControls.PlaceAddressed | openblt/srv/console2/vt100.c:364-375 | ESC [ r ; c H and f, either number left out or not: to that row and column |
| VtControls.PlaceSaved | openblt/srv/console2/vt100.c:405-407 | ESC [ s: the cursor's place is kept |
| VtControls.PlaceRestored | openblt/srv/console2/vt100.c:408-409 | ESC [ u: the cursor goes to the place kept |
| VtControls.DisplayErased | openblt/srv/console2/vt100.c:376-378 | ESC [ J: the cells from the cursor on, those up to it, or all become spaces in the attribute; only the last sends the cursor home; other cells stay |
| VtControls.LineErased | openblt/srv/console2/vt100.c:402-404 | ESC [ K: the same within the cursor's row; the cursor stays |
| VtControls.LinesInserted | openblt/srv/console2/vt100.c:379-388 | ESC [ n L: in the region the rows from the cursor's to its end move down by n behind blank rows; other rows, and a cursor outside it, change nothing |
| VtControls.LinesRemoved | openblt/srv/console2/vt100.c:389-398 | ESC [ n M: they move up by n, and blank rows follow |
| VtControls.CellsDeleted | openblt/srv/console2/vt100.c:399-401 | ESC [ n P: the cells from the cursor on move left by n and blanks follow; other cells stay |
| VtControls.CellsSmeared | openblt/srv/console2/vt100.c:110-127 | with a count that is held as negative, or overflows the column, the stretch of the array from the cursor on repeats the cells in front of it; other cells stay |
| VtControls.CellsStray | openblt/srv/console2/vt100.c:110-127 | when part of that stretch is outside the array the screen is marked so |
| VtControls.RegionSet | openblt/srv/console2/vt100.c:410-418 | ESC [ a ; b r: the region is rows a to b, counted from one and cut to the screen, unless a is above b |
| VtControls.AttributeReset | openblt/srv/console2/vt100.c:419-424 | ESC [ m: the attribute is 7 |
| VtControls.AttributePainted | openblt/srv/console2/vt100.c:425-459 | each further code of ESC [ ... m sets or clears exactly its bits of the attribute that the codes before it made |
| VtControls.SixteenCodes | openblt/srv/console2/vt100.c:312-317 | codes after the sixteenth do nothing |
| VtControls.OthersIgnored | openblt/srv/console2/vt100.c:319-462 | a sequence that ends in any other byte does nothing |
| VtControls.Tabbed | openblt/srv/console2/vt100.c:271-272 | to the next column that is a multiple of eight, or the last |
| VtControls.BackSpaced | openblt/srv/console2/vt100.c:273-281 | one column back, from the first to the last of the same row |
| VtControls.CarriageReturned | openblt/srv/console2/vt100.c:259-260 | to the first column |
| VtControls.LineFed | openblt/srv/console2/vt100.c:261-270 | to the beginning of the next row; on the last row of the region the region moves up by one; below it the row stays |
| VtControls.FormFed | openblt/srv/console2/vt100.c:257-258 | all cells become spaces and the cursor goes home |
| VtControls.NothingSent | openblt/srv/console2/vt100.c:282-283 | a zero byte does nothing |
| VtControls.Indexed | openblt/srv/console2/vt100.c:229-237 | ESC D and E go down a row, E to its beginning; on the last row of the region or below it the region moves up by one |
| VtControls.ReverseIndexed | openblt/srv/console2/vt100.c:238-244 | ESC M goes up a row; on the first row of the region the region moves down by one; above it nothing changes |
| VtControls.AllSaved | openblt/srv/console2/vt100.c:222-225 | ESC 7 keeps the attribute and the cursor's place |
| VtControls.CharsetIgnored | openblt/srv/console2/vt100.c:199-216 | ESC ( and ESC ) swallow one more byte and do nothing |
| VtControls.EscapeIgnored | openblt/srv/console2/vt100.c:209-249 | any other byte after ESC does nothing; a second ESC leaves the first in force |
| VtRuns.TypeText | openblt/srv/console2/vt100.c:282-300 | typed text stands in the cursor row from the cursor on; what does not fit is typed over the last cell; nothing else changes |
| VtRuns.LineFeedsScroll | openblt/srv/console2/vt100.c:261-270 | n line feeds on the last line of the region scroll the region by n rows; other rows stay |
| VtRuns.RemoveUndoesInsert | openblt/srv/console2/vt100.c:379-398 | deleting the lines just inserted brings the rows back, but for those pushed out of the region |
| VtRuns.StepElsewhere | openblt/srv/console2/vt100.c:209-463 | a row outside the region and without the cursor changes only when the display is erased or a deletion copies from in front of the cursor |
| VtRuns.RestoreUndoesMoves | openblt/srv/console2/vt100.c:405-409 | after any text that does no harm, saves no other position and ends outside a control sequence, the restoring sequence brings the cursor back |
| VtRuns.EscapeRestoresAttributeOnly | openblt/srv/console2/vt100.c:226-228 | ESC 8 changes the attribute and nothing else |
| VtRuns.RegionCanBeEmptied | openblt/srv/console2/vt100.c:410-418 | two commands that are accepted and leave a region without rows, one by a number that has wrapped around |
| VtRuns.DeletionCanStray | openblt/srv/console2/vt100.c:110-127 | on the last row a count of 4294967295, held as -1, makes the copying loop write behind the array |
| VtRuns.MovesCanWrap | openblt/srv/console2/vt100.c:92-108 | a move to the right by 2147483647 ends in column 0 from every column but the first |
| VtCells.LocOrder | openblt/srv/console2/vt100.h:10-10 | cells are stored row by row, each at its own place |
| VtCells.FlatGrid | openblt/srv/console2/vt100.h:10-10 | the rows put one after another are the array again |
| VtGrid.CopiedIsMoved | openblt/srv/console2/vt100.c:120-125 | copying cell by cell towards the front, with overlap, is moving the cells as they were |
| VtGrid.FillClears | openblt/srv/console2/vt100.c:42-50 | filling a stretch of the array blanks exactly the cells between the two positions |
| VtGrid.MoveShiftsUp | openblt/srv/console2/vt100.c:163-176 | moving the flat array shifts whole rows of the region up and blanks the last; all other rows stay |
| VtGrid.MoveShiftsDown | openblt/srv/console2/vt100.c:155-159 | moving the flat array shifts whole rows of the region down and blanks the first; all other rows stay |
| VtGrid.MoveDeletes | openblt/srv/console2/vt100.c:110-127 | moving within a row deletes cells at the cursor; all other rows stay |
| Vt100.Virtscreen.constructor | openblt/srv/console2/vt100.c:19-40 | a blank, well formed screen with the whole height as region |
| Vt100.Virtscreen.ClearVirtscreen | openblt/srv/console2/vt100.c:52-65 | erases the part of the rows asked for |
| Vt100.Virtscreen.ScrollVirtUpAtCursor | openblt/srv/console2/vt100.c:129-161 | the rows from the cursor to the end of the region move by one, if the cursor is in the region |
| Vt100.Virtscreen.ScrollVirtscreen | openblt/srv/console2/vt100.c:163-176 | the region moves up by one row |
| Vt100.Virtscreen.DeleteCharsInLine | openblt/srv/console2/vt100.c:110-127 | whenever the copying stays in the array, for a negative or wrapped count too, both loops leave the rows that the specification says: the cursor row without n cells, or cells from in front of the cursor copied over its end |
| Vt100.Virtscreen.InsertLines | openblt/srv/console2/vt100.c:379-398 | the loop of single moves is one move by n rows |
| Vt100.Virtscreen.StdInterpretChar | openblt/srv/console2/vt100.c:251-303 | in the array every store is within bounds, and the rows change as the specification says |
| Vt100.Virtscreen.StdInterpretAnsi | openblt/srv/console2/vt100.c:209-249 | the same for the byte after ESC |
| Vt100.Virtscreen.SpecialReadingAnsi | openblt/srv/console2/vt100.c:305-463 | the same within control sequences, parameters in an array of sixteen: each byte does the step whose meaning the members of `VtControls` give |
| Vt100.Virtscreen.CharToVirtscreen | openblt/srv/console2/vt100.h:12-12 | every byte that stays in the array does one step, whose meaning the members of `VtControls` and `VtRuns.TypeText` give, and keeps the screen well formed exactly when it does not empty the region |
| Vt100.Virtscreen.Vputs | openblt/srv/console2/console.c:112-119 | a string that does no harm is run through with a carriage return after every line feed |
| Checksum.Ipchksum | openblt/netboot/netboot.c:363-373 | the loop folds the sum of the words as ones' complement addition does |
| Checksum.AcceptedExactly | openblt/netboot/netboot.c:475-477 | a header is accepted if and only if its sum is a positive multiple of 65535 |
| Checksum.SealedAccepted | openblt/netboot/netboot.c:433-434 | a header sealed with its own checksum is accepted |
| Checksum.OneChangeNoticed | openblt/netboot/netboot.c:363-373 | one changed word is noticed unless it changed between the two zeros |
| NetbootState.StepKeeps | openblt/util/netboot.c:75-116 | for a file in which no two blocks with one number differ: whatever packet arrives, is lost or repeated, every acknowledged block is in memory and every block passed stays there |
| NetbootState.ExecMeansLoaded | openblt/util/netboot.c:75-116 | once EXEC is emitted every block is at its address if and only if no two blocks with the same sixteen-bit number differ |
| NetbootState.StartedMeansLoaded | openblt/netboot/netboot.c:447-455 | once the program has been started, EXEC has been emitted, and every block is at its address if and only if no two blocks with the same number differ |
| NetbootState.SmallFilesNeverClash | openblt/util/netboot.c:75-77 | up to 65536 blocks no two share a number |
| NetbootState.FileLoaded | openblt/util/netboot.c:75-116 | once EXEC is emitted a file of up to 64 megabytes is in memory byte for byte |
| NetbootState.BigFilesMayClash | openblt/util/netboot.c:77-77 | a longer file in which two blocks with one number differ |
| NetbootState.BigFileSpoilt | openblt/util/netboot.c:75-116 | a run on that file in which EXEC is emitted and the program started with a block not in place |
| NetbootState.CanFinish | openblt/util/netboot.c:79-109 | for any file, from every state that can be reached there is a way for EXEC to be emitted and the program to be started |
| NetbootState.ReachableGoes | openblt/util/netboot.c:75-116 | every state that can be reached is such a state, whatever the network did |
| NetbootSender.Send | openblt/util/netboot.c:75-116 | whatever answers come, the loop takes steps of the protocol, and ends with EXEC or waits on |
| NetbootLoader.Loader.HandleUdp | openblt/netboot/netboot.c:377-461 | a block is stored at its address and acknowledged, with a sealed header, to the first host that ever sent a command; EXEC starts the program; all else is ignored |
| NetbootLoader.Loader.Receive | openblt/netboot/netboot.c:387-458 | handling a packet is the receiving step of the proved protocol |

## Left out

Allocator:

- MallocHeapManager.Allocator.Free: the call of `malloc_trim` when top is large is not modelled.
- `malloc_trim`, `mallopt`, `memalign`, `calloc`, statistics, mmap, and the path for memory that others obtained from
  sbrk: the heap is contiguous.
- Sizes are unbounded integers; requests near 2^31 are not modelled.
- MallocHeapManager.Allocator.Sbrk: sbrk gives memory or refuses, by free choice; that it may place new memory
  elsewhere is not modelled.
- `top` and `binblocks` are fields, not words among the bins. Zeroing of a freed block's contents is not modelled.

Hash table and sort:

- The primality of the table sizes is assumed; a load is a rational, not a `float`; growing beyond the last size and
  inserting a key twice are excluded; `hashtable_del` only frees.
- The elements of `qsort` are swapped whole; the choice between longs and chars in `swapcode` is not modelled.

Kernel:

- `list_add_*` and `list_remove_*` allocate nodes around the modelled `list_attach_*` and `list_detach_*`.
- Context switch, SMP, timer queue, rights, teams and their reference counts, owners' lists and names of resources.
- Faults as a way to die; `irq_task_map` keeps the address of a task that has died, and interrupts for such a task
  are not modelled.
- The stored messages of a port are a sequence; the page pool, rights, `port_destroy` and changing slave links are not
  modelled.
- KernelFunctions.Kernel.DestroySem: not for the reaper's own semaphore, without which the next task to die would take
  the kernel with it.
- PortFunctions.Ports.PortSend: a message too long or too far up is refused only after the wait, as in the source, and
  the invariant is claimed for the other messages only.
- The counters of a `qsem` and of a semaphore do not wrap.

Address spaces:

- PHYSMAP areas, `area_create_uber`, the pager, `kgetpage` and `kfreepage`; `memory_init` is replaced by a well formed
  free list.
- AddressSpaces.Memory.AreaCreate: enough free pages are required, where the kernel panics; and a span of the asked
  length must exist unless the search is sure to notice that there is none.
- AddressSpaces.Memory.AreaResize: only for an area that is the only one of its group, with the same two conditions, and
  called with the address space the area is in, which the source does not check.

Z-machine:

- Screen and keyboard, properties, attributes, undo, save and restore, opcodes other than calls, returns and accesses to
  variables; abbreviations are a parameter; the list of frames to be used again is never filled in the source.

Decimal floating point:

- Division, subtraction, roots and transcendental functions; how far a rounded result is off when an operand is
  negative.
- DecimalMethods.Normalize: where a constructor of the source throws, the model returns `Overflow`; an exponent out of
  range in a text is thrown out of fromString there.
- DecimalMethods.FromString: the text is already trimmed.

VT100 and loader:

- `malloc` succeeds, and screens have fewer than 2^30 rows and columns; `move_cursor` and the lock are outside the
  model.
- Vt100.Virtscreen.Vputs: not for a string that does harm; from an empty region, in which scrolling is undefined, the
  source goes on, and a later region command may mend it. `VtScreen.Run` stops at the byte that does harm.
- Vt100.Virtscreen.CharToVirtscreen: not for a deletion that reaches outside the array; what the memory there then holds
  is not modelled. `VtScreen.Strays` says when that is.
- A cell is a pair of character and attribute, not the two packed in sixteen bits.
- RARP, ARP, the network card and the start of the program; packets for other ports or with bad checksums.
- NetbootLoader.Loader.HandleUdp: a LOAD packet carries a whole block, as the sender's do; the source does not look at
  its length.
- NetbootState.FileLoaded: every read but the last fills its block.
