# A verified model of a Pintos kernel

This project models the parts of the kernel whose correctness is not visible
from one function, and proves what they promise. `dafny verify dfyconfig.toml`
checks everything.

| files | what they model | main results |
|---|---|---|
| `NaturalMergeSort`, `KernelList` | the doubly linked list at pointer level | `list_sort` is a stable sort of the same nodes in logarithmically many passes |
| `InodeModel`, `InodeSpace`, `Inode` | inodes with direct and singly indirect index blocks | an inode is a growable byte sequence; a write is complete exactly when the sectors it takes are free |
| `PagingModel`, `Paging` | frame table, supplemental page table, swap, lazy loading | user memory is plain memory in every run of accesses, faults, evictions and stack growth |
| `BufferCache` | the second-chance write-back cache | the cache and the device together are a flat disk |
| `KernelModel`, `KernelSteps`, `KernelRuns`, `KernelTheorems`, `KernelCalls`, `ThreadSystem` | scheduler, semaphores, locks, condition variables, sleep queue | invariants over all interleavings, what follows for every run, and what each call has done when it returns |
| `Words`, `Bitmap`, `Palloc`, `MallocModel`, `MallocPages`, `Malloc` | packed bitmap, page pools, `malloc` | live blocks are disjoint and large enough, and hold all the pages that were taken |
| `Arithmetic` | 64-bit division from 64/32-bit division | the quotients are right, and exactly when the remainders are |
| `HashTable` | the rehashing hash table | a finite set modulo equivalence |
| `ArgvStack` | `strtok_r` and the initial user stack | the new program finds the words of its command line |
| `PageDir` | two-level page tables, bit by bit | a partial map from pages to frames and flags |
| `HeapSort` | `sort` and `binary_search` | sorted permutation; found exactly when present |
| `Ustar` | archive headers and octal numbers | parsing undoes making |
| `Sequences` | bytes, pages, sectors, C strings | shared definitions |

How to read it: code that updates objects is a class (or a method on an array)
whose fields are the C variables; each method is proved against a function or
predicate on values, named in its `ensures`. The value side (`...Model` modules)
holds the invariants, with one lemma for each state change. Ghost maps from
sectors, frames, slots or blocks to their owners say that nothing is shared.

Threads are modelled as a state machine. Each body that runs with interrupts
off is one step, and so is each assignment between two such bodies; any
interrupt may come between two steps. `KernelRuns.Enabled` asks of callers what
the assertions of the C code ask, and that a lock was initialised. The history
variables of the machine (`tickets`, `owners`) do not occur in the statements of
`KernelTheorems` and `KernelCalls`: these speak of lists, values, holders and
sequences of steps.

Conditions that come from the surroundings: `less` and `compare` are what their
documentation demands (a strict weak order, a total preorder), and a hash
function respects equality. What `malloc`, `palloc_get_page` or `file_read`
deliver is a parameter or follows from the modelled allocator. Integers are
unbounded except where the width matters: machine words in `Arithmetic`,
`Words`, `Bitmap`, `PageDir`, `ArgvStack` and `Ustar` are reduced or bounded
explicitly.

Results about code that does not do what one may expect:

- A write that begins past the end of a file may stop short although there is
  space, because `inode_grow` adds the wanted bytes to the length and not to the
  rounded length (filesys/inode.c:460-473). `Inode.GrowthBounds` gives the exact
  condition and `Inode.ShortWritePastEnd` an instance.
- Writing to an empty file allocates one sector more than needed
  (filesys/inode.c:455-458), so that `Inode.MaxEnd` is one sector lower for it:
  `Inode.ReachIsExact` is an equivalence, `Inode.EmptyFileReach` an instance.
- A stack page obtained by eviction is not cleared: `Paging.Vm.GrowStack` says
  what it reads as, and in `Paging.StaleStackPage` that is not zero.
- A file that has become shorter than its mapped segment leaves stale bytes in
  the frame: `PagingModel.FilledIsImage` is an equivalence.
- `sdiv64` of INT64_MIN by -1 and `umod64`/`smod64` with large remainders wrap:
  the lemmas are equivalences.
- The stack is built with writes that are skipped once `esp` is at or below the
  last page boundary, the boundary included (userprog/process.c:608), and a
  longer line is not refused. The arguments come out right up to a stack of
  exactly one page, where only the return address is missing, and beyond that
  only if what the page held before happens to be argc:
  `ArgvStack.UserStack.SetupStack` is an equivalence, `ArgvStack.FitsZeroed` has
  the condition for a cleared page and `ArgvStack.LongLines` an instance.
- The comment on `bitmap_scan` with a count of zero and the one on
  `arena_to_block` ("(IDX - 1)'th") do not describe the code; the model follows
  the code.

## Model

| member | source | states |
|---|---|---|
| `KernelList.Insert` | projmod#3_OS-20211125T213946Z-001/projmod#3_OS/project-module-3-group17_cs301/src/lib/kernel/list.c:168-178 | `list_insert` turns the linked structure of a sequence into that of the sequence with the element put in; only three nodes change |
| `KernelList.Remove` | projmod#3_OS-20211125T213946Z-001/projmod#3_OS/project-module-3-group17_cs301/src/lib/kernel/list.c:248-255 | `list_remove` takes exactly that element out and returns its successor |
| `KernelList.List.PushBack` | projmod#3_OS-20211125T213946Z-001/projmod#3_OS/project-module-3-group17_cs301/src/lib/kernel/list.c:216-220 | `list_push_back` appends the node |
| `KernelList.List.PopFront` | projmod#3_OS-20211125T213946Z-001/projmod#3_OS/project-module-3-group17_cs301/src/lib/kernel/list.c:259-265 | `list_pop_front` takes the first node out and returns it |
| `KernelList.Splice` | projmod#3_OS-20211125T213946Z-001/projmod#3_OS/project-module-3-group17_cs301/src/lib/kernel/list.c:183-204 | `list_splice` moves a range, within one list or between two, in constant time; both lists stay well formed |
| `KernelList.IsSorted` | projmod#3_OS-20211125T213946Z-001/projmod#3_OS/project-module-3-group17_cs301/src/lib/kernel/list.c:341-350 | comparing neighbours decides sortedness of the whole range |
| `KernelList.FindEndOfRun` | projmod#3_OS-20211125T213946Z-001/projmod#3_OS/project-module-3-group17_cs301/src/lib/kernel/list.c:357-372 | returns the end of the first maximal nondecreasing run |
| `KernelList.InplaceMerge` | projmod#3_OS-20211125T213946Z-001/projmod#3_OS/project-module-3-group17_cs301/src/lib/kernel/list.c:379-399 | merging by splicing gives the stable merge of two adjacent sorted ranges, in place |
| `KernelList.List.Reverse` | projmod#3_OS-20211125T213946Z-001/projmod#3_OS/project-module-3-group17_cs301/src/lib/kernel/list.c:325-337 | the node order is reversed and all `prev`/`next` links are right again |
| `KernelList.List.MergeNextRuns` | projmod#3_OS-20211125T213946Z-001/projmod#3_OS/project-module-3-group17_cs301/src/lib/kernel/list.c:421-434 | one iteration of the inner loop replaces two runs by their merge |
| `KernelList.List.SortPass` | projmod#3_OS-20211125T213946Z-001/projmod#3_OS/project-module-3-group17_cs301/src/lib/kernel/list.c:414-435 | one pass merges runs pairwise and returns the number of output runs |
| `KernelList.List.Sort` | projmod#3_OS-20211125T213946Z-001/projmod#3_OS/project-module-3-group17_cs301/src/lib/kernel/list.c:404-440 | `list_sort` leaves a sorted stable permutation of the same nodes, well linked, after at most 1 + log2(R - 1) passes over R runs |
| `KernelList.List.PlaceFor` | projmod#3_OS-20211125T213946Z-001/projmod#3_OS/project-module-3-group17_cs301/src/lib/kernel/list.c:455-458 | finds the first element that the new one is less than |
| `KernelList.List.InsertOrdered` | projmod#3_OS-20211125T213946Z-001/projmod#3_OS/project-module-3-group17_cs301/src/lib/kernel/list.c:445-459 | inserts behind the equivalent elements; a sorted list stays sorted |
| `KernelList.List.Unique` | projmod#3_OS-20211125T213946Z-001/projmod#3_OS/project-module-3-group17_cs301/src/lib/kernel/list.c:465-485 | keeps the first of each group of equal neighbours and appends the others to `duplicates`, at pointer level, for two lists at once |
| `KernelList.UniqueMeans` | projmod#3_OS-20211125T213946Z-001/projmod#3_OS/project-module-3-group17_cs301/src/lib/kernel/list.c:461-485 | no two neighbours that stay are equal, nothing is lost, every element taken out equals one that stays |
| `KernelList.FirstOfGroupStays` | projmod#3_OS-20211125T213946Z-001/projmod#3_OS/project-module-3-group17_cs301/src/lib/kernel/list.c:461-485 | the list falls into groups of neighbours equal to the first of the group: exactly these first ones stay, and the others are taken out in their order |
| `KernelList.UniqueOfSorted` | projmod#3_OS-20211125T213946Z-001/projmod#3_OS/project-module-3-group17_cs301/src/lib/kernel/list.c:461-485 | on a sorted list what stays is strictly increasing |
| `NaturalMergeSort.MergeSortCorrect` | projmod#3_OS-20211125T213946Z-001/projmod#3_OS/project-module-3-group17_cs301/src/lib/kernel/list.c:400-440 | the composition of passes is a stable sort, for every strict weak order |
| `NaturalMergeSort.StableSortUnique` | projmod#3_OS-20211125T213946Z-001/projmod#3_OS/project-module-3-group17_cs301/src/lib/kernel/list.c:400-440 | there is only one stable sorted permutation, so the result is determined |
| `NaturalMergeSort.MergeStable` | projmod#3_OS-20211125T213946Z-001/projmod#3_OS/project-module-3-group17_cs301/src/lib/kernel/list.c:374-399 | a merge keeps equivalent elements in their order |
| `NaturalMergeSort.PassOutputRuns` | projmod#3_OS-20211125T213946Z-001/projmod#3_OS/project-module-3-group17_cs301/src/lib/kernel/list.c:414-435 | the runs left by a pass are no more than the pass counted |
| `NaturalMergeSort.PassRunsIsHalf` | projmod#3_OS-20211125T213946Z-001/projmod#3_OS/project-module-3-group17_cs301/src/lib/kernel/list.c:414-435 | a pass over R runs outputs ceil(R / 2): the reason why the outer loop ends |
| `Inode.Volume.FreeMapAllocate` | projmod#3_OS-20211125T213946Z-001/projmod#3_OS/project-module-3-group17_cs301/src/filesys/free-map.c:28-42 | the first free sector is taken (every one before it is in use); failure means that the map is full |
| `Inode.Volume.AllocateNewBlock` | projmod#3_OS-20211125T213946Z-001/projmod#3_OS/project-module-3-group17_cs301/src/filesys/inode.c:565-576 | a new data sector was free, is taken and reads as zeros |
| `Inode.Volume.AllocateNewIndexInode` | projmod#3_OS-20211125T213946Z-001/projmod#3_OS/project-module-3-group17_cs301/src/filesys/inode.c:579-590 | a new index sector has no entry set |
| `Inode.Inode.PosToRealSector` | projmod#3_OS-20211125T213946Z-001/projmod#3_OS/project-module-3-group17_cs301/src/filesys/inode.c:482-518 | direct and singly indirect branches find, or allocate, the sector of a file position; without `allocate_new` nothing changes |
| `Inode.Inode.PosToDirectSector` | projmod#3_OS-20211125T213946Z-001/projmod#3_OS/project-module-3-group17_cs301/src/filesys/inode.c:492-495 | the direct branch: only the asked-for slot can change |
| `Inode.Inode.PosToIndirectSector` | projmod#3_OS-20211125T213946Z-001/projmod#3_OS/project-module-3-group17_cs301/src/filesys/inode.c:496-518 | the singly indirect branch, including the allocation of the index block |
| `Inode.Inode.ByteToSector` | projmod#3_OS-20211125T213946Z-001/projmod#3_OS/project-module-3-group17_cs301/src/filesys/inode.c:55-65 | -1 exactly at and past the length, else the sector that holds the byte |
| `Inode.Inode.GrowSectors` | projmod#3_OS-20211125T213946Z-001/projmod#3_OS/project-module-3-group17_cs301/src/filesys/inode.c:455-471 | the loop covers every file sector up to the wanted one, if and only if as many sectors are free before the call as data sectors and index blocks are missing |
| `Inode.Inode.Grow` | projmod#3_OS-20211125T213946Z-001/projmod#3_OS/project-module-3-group17_cs301/src/filesys/inode.c:446-479 | the new length is exactly `GrownLength`, no byte changes (the new ones are zeros), other inodes' sectors are untouched; it succeeds if and only if there was room before the call, and takes exactly the sectors that the file lacked |
| `Inode.Inode.ReadAt` | projmod#3_OS-20211125T213946Z-001/projmod#3_OS/project-module-3-group17_cs301/src/filesys/inode.c:298-337 | returns exactly the bytes of the file in the range, cut at its length |
| `Inode.Inode.WriteStep` | projmod#3_OS-20211125T213946Z-001/projmod#3_OS/project-module-3-group17_cs301/src/filesys/inode.c:352-403 | one round of the write loop, which may first grow the file by a short step; it stops exactly when there was no room |
| `Inode.Inode.WriteAt` | projmod#3_OS-20211125T213946Z-001/projmod#3_OS/project-module-3-group17_cs301/src/filesys/inode.c:343-410 | the file is the old one overlaid with the bytes written. With the free sectors counted before the call, the write is complete if and only if they are as many as the file lacks (index blocks included), for every write that `WriteReaches` its offset; exactly those sectors are taken; the length and the bytes written of a short write are exact too |
| `Inode.CreateInode` | projmod#3_OS-20211125T213946Z-001/projmod#3_OS/project-module-3-group17_cs301/src/filesys/inode.c:84-146 | the new file reads as `length` zeros; it succeeds if and only if at least as many sectors are free before the call as its data and index blocks take; no used sector is disturbed |
| `Inode.GrowthInReach` | projmod#3_OS-20211125T213946Z-001/projmod#3_OS/project-module-3-group17_cs301/src/filesys/inode.c:446-479 | growing never asks for a sector beyond the singly indirect range |
| `Inode.GrowthBounds` | projmod#3_OS-20211125T213946Z-001/projmod#3_OS/project-module-3-group17_cs301/src/filesys/inode.c:446-471 | a write at or past the end gets to its offset if and only if `WriteReaches`, a condition on length, size and offset |
| `Inode.ShortWritePastEnd` | projmod#3_OS-20211125T213946Z-001/projmod#3_OS/project-module-3-group17_cs301/src/filesys/inode.c:460-471 | a concrete write past the end that writes nothing although space is left |
| `Inode.ReachIsExact` | projmod#3_OS-20211125T213946Z-001/projmod#3_OS/project-module-3-group17_cs301/src/filesys/inode.c:446-479 | growing asks for no sector beyond the singly indirect range if and only if the write ends at or before `MaxEnd` |
| `Inode.EmptyFileReach` | projmod#3_OS-20211125T213946Z-001/projmod#3_OS/project-module-3-group17_cs301/src/filesys/inode.c:455-458 | filling all of that range is within reach of a file of one byte and not of an empty file, which asks for one sector more |
| `Inode.PaddingIsFree` | projmod#3_OS-20211125T213946Z-001/projmod#3_OS/project-module-3-group17_cs301/src/filesys/inode.c:446-471 | a write into the padding of the last sector needs no free sector |
| `Inode.OtherFilesKept` | projmod#3_OS-20211125T213946Z-001/projmod#3_OS/project-module-3-group17_cs301/src/filesys/inode.c:343-410 | what `WriteAt` promises keeps the invariant and the bytes of every other inode of the volume that shares no sector with it, and the two still share none |
| `InodeModel.IndexBijection` | projmod#3_OS-20211125T213946Z-001/projmod#3_OS/project-module-3-group17_cs301/src/filesys/inode.c:496-515 | (main_idx, inner_idx) pairs and file sectors correspond one to one |
| `InodeModel.LookupOwned` | projmod#3_OS-20211125T213946Z-001/projmod#3_OS/project-module-3-group17_cs301/src/filesys/inode.c:482-518 | a sector found through the index tables belongs to this inode for exactly that file sector |
| `InodeModel.LookupInjective` | projmod#3_OS-20211125T213946Z-001/projmod#3_OS/project-module-3-group17_cs301/src/filesys/inode.c:482-518 | distinct file sectors map to distinct disk sectors |
| `InodeModel.WriteBlockOk` | projmod#3_OS-20211125T213946Z-001/projmod#3_OS/project-module-3-group17_cs301/src/filesys/inode.c:386-391 | a write within one sector changes exactly those file bytes |
| `InodeModel.SetLengthOk` | projmod#3_OS-20211125T213946Z-001/projmod#3_OS/project-module-3-group17_cs301/src/filesys/inode.c:472-476 | raising the length exposes zeros only |
| `InodeModel.GiveDirectOk` | projmod#3_OS-20211125T213946Z-001/projmod#3_OS/project-module-3-group17_cs301/src/filesys/inode.c:492-495 | a fresh sector in a direct slot changes no byte of the file |
| `InodeModel.GiveIndirectOk` | projmod#3_OS-20211125T213946Z-001/projmod#3_OS/project-module-3-group17_cs301/src/filesys/inode.c:505-517 | a fresh sector in an index block changes no byte of the file |
| `InodeModel.OwnSectorsOnly` | projmod#3_OS-20211125T213946Z-001/projmod#3_OS/project-module-3-group17_cs301/src/filesys/inode.c:482-518 | the bytes of a file depend on its own sectors only |
| `InodeSpace.SectorGiven` | projmod#3_OS-20211125T213946Z-001/projmod#3_OS/project-module-3-group17_cs301/src/filesys/inode.c:482-518 | allocating a data sector lowers the free sectors and the need for every longer file by one each |
| `InodeSpace.IndexGiven` | projmod#3_OS-20211125T213946Z-001/projmod#3_OS/project-module-3-group17_cs301/src/filesys/inode.c:505-510 | and so does allocating an index block |
| `InodeSpace.CoveredNeedsNothing` | projmod#3_OS-20211125T213946Z-001/projmod#3_OS/project-module-3-group17_cs301/src/filesys/inode.c:446-471 | a file all of whose sectors are there needs none |
| `InodeSpace.NewFileNeeds` | projmod#3_OS-20211125T213946Z-001/projmod#3_OS/project-module-3-group17_cs301/src/filesys/inode.c:84-146 | growing a new file to n sectors takes n - 1 data sectors and one index block for each that its sectors reach into |
| `Paging.Vm.SwapOut` | projmod#3_OS-20211125T213946Z-001/projmod#3_OS/project-module-3-group17_cs301/src/vm/swap.c:54-78 | takes the first free slot and stores the page there; -1 exactly when none is free |
| `Paging.Vm.SwapIn` | projmod#3_OS-20211125T213946Z-001/projmod#3_OS/project-module-3-group17_cs301/src/vm/swap.c:19-34 | the frame becomes the page stored in the slot |
| `Paging.Vm.SelectFrameToEvict` | projmod#3_OS-20211125T213946Z-001/projmod#3_OS/project-module-3-group17_cs301/src/vm/frame.c:99-123 | the clock scan takes the first frame in its order whose page was not accessed, or the first of all if every page was; it clears exactly the accessed bits in front of it and ends after at most one sweep and one step |
| `Paging.Vm.FrameAlloc` | projmod#3_OS-20211125T213946Z-001/projmod#3_OS/project-module-3-group17_cs301/src/vm/frame.c:26-49 | the new frame is nobody's; no page's contents change; it is zero only if a frame was free; PANIC if and only if before the call every frame was in use and every slot taken |
| `Paging.Vm.EvictAndGetFrame` | projmod#3_OS-20211125T213946Z-001/projmod#3_OS/project-module-3-group17_cs301/src/vm/frame.c:124-185 | the victim's bytes move to a swap slot and stay what the page reads as; the victim was not accessed unless every page was; PANIC if and only if no slot was free before the call |
| `Paging.Vm.PageOut` | projmod#3_OS-20211125T213946Z-001/projmod#3_OS/project-module-3-group17_cs301/src/vm/frame.c:143-185 | the victim goes to a free slot and gets an entry for it, which it did not have, and the frame its new owner; no page reads otherwise; -1 and no change if no slot is free |
| `Paging.Vm.FrameFree` | projmod#3_OS-20211125T213946Z-001/projmod#3_OS/project-module-3-group17_cs301/src/vm/frame.c:54-68 | gives back a frame without touching any page |
| `Paging.Vm.PageIn` | projmod#3_OS-20211125T213946Z-001/projmod#3_OS/project-module-3-group17_cs301/src/vm/page.c:247-313 | a lazy page is loaded with its contents (swapped bytes, or file bytes and zeros) and all other pages keep theirs; a page that comes back from swap leaves its slot free; PANIC if and only if there was no room before the call |
| `Paging.Vm.GrowStack` | projmod#3_OS-20211125T213946Z-001/projmod#3_OS/project-module-3-group17_cs301/src/vm/page.c:314-325 | a stack page reads as zeros if a frame was free, else as some other page did; PANIC if and only if there was no room before the call |
| `Paging.Vm.PageFault` | projmod#3_OS-20211125T213946Z-001/projmod#3_OS/project-module-3-group17_cs301/src/vm/page.c:67-77 | a fault makes the page present or leaves its contents as they were; refusals are characterised; PANIC if and only if there was no room before the call and the page is lazy or the stack grows |
| `Paging.Vm.AddLazy` | projmod#3_OS-20211125T213946Z-001/projmod#3_OS/project-module-3-group17_cs301/src/vm/page.c:233-244 | a lazy entry makes the page read as its initial image without loading it |
| `Paging.Vm.LoadSegment` | projmod#3_OS-20211125T213946Z-001/projmod#3_OS/project-module-3-group17_cs301/src/userprog/process.c:471-500 | each page of a lazily loaded segment reads as eager copying would have left it |
| `Paging.Vm.Perform` | projmod#3_OS-20211125T213946Z-001/projmod#3_OS/project-module-3-group17_cs301/src/vm/page.c:67-77 | a load or store with the fault it may cause, stack growth included, acts like the same access to plain memory; which outcome it has, and when it panics, depends on the state before only |
| `Paging.Vm.Run` | projmod#3_OS-20211125T213946Z-001/projmod#3_OS/project-module-3-group17_cs301/src/vm/page.c:247-313 | over every run of loads and stores, with faults, evictions, stack growth and refusals, the memory at the end is that of a plain memory on which the same run was made, each load returns what plain memory holds, and the run ends early only when frames and swap are used up; runs compose |
| `Paging.LastStore` | projmod#3_OS-20211125T213946Z-001/projmod#3_OS/project-module-3-group17_cs301/src/vm/page.c:247-313 | in that plain memory a byte is the last one stored there in the run |
| `Paging.ExpectedSplit` | projmod#3_OS-20211125T213946Z-001/projmod#3_OS/project-module-3-group17_cs301/src/vm/page.c:247-313 | two runs one after the other are one run |
| `Paging.StaleStackPage` | projmod#3_OS-20211125T213946Z-001/projmod#3_OS/project-module-3-group17_cs301/src/vm/page.c:314-325 | a machine with one frame in which a fresh stack page reads as 7 |
| `Paging.SegmentPageIsImage` | projmod#3_OS-20211125T213946Z-001/projmod#3_OS/project-module-3-group17_cs301/src/userprog/process.c:471-500 | the per-page file info describes exactly that page of the segment |
| `Paging.ProgramHeader` | projmod#3_OS-20211125T213946Z-001/projmod#3_OS/project-module-3-group17_cs301/src/userprog/process.c:367-391 | the sizes computed in `load` put file byte i at virtual address p_vaddr + i and zeros behind p_filesz |
| `PagingModel.FilledIsImage` | projmod#3_OS-20211125T213946Z-001/projmod#3_OS/project-module-3-group17_cs301/src/vm/page.c:274-293 | filling a frame gives file bytes then zeros whatever was in it, if and only if the file still has the bytes |
| `PagingModel.NoSharing` | projmod#3_OS-20211125T213946Z-001/projmod#3_OS/project-module-3-group17_cs301/src/vm/frame.c:70-89 | no frame and no swap slot in use belongs to two pages, and a present page has no lazy entry (so the PANIC for one is unreachable) |
| `PagingModel.SlotsHoldPages` | projmod#3_OS-20211125T213946Z-001/projmod#3_OS/project-module-3-group17_cs301/src/vm/swap.c:48-52 | a swap slot is taken if and only if it holds a page: every swap-in gives its slot back |
| `PagingModel.Capacity` | projmod#3_OS-20211125T213946Z-001/projmod#3_OS/project-module-3-group17_cs301/src/vm/swap.c:54-78 | there is no room (the condition of the PANIC) exactly when the resident pages fill the frames and the swapped pages fill the slots |
| `PagingModel.EvictedOk` | projmod#3_OS-20211125T213946Z-001/projmod#3_OS/project-module-3-group17_cs301/src/vm/frame.c:143-185 | eviction keeps the invariant and every page's contents |
| `Arithmetic.Nlz` | projmod#3_OS-20211125T213946Z-001/projmod#3_OS/project-module-3-group17_cs301/src/lib/arithmetic.c:42-73 | counts the leading zeros of a nonzero 32-bit word |
| `Arithmetic.NarrowFits` | projmod#3_OS-20211125T213946Z-001/projmod#3_OS/project-module-3-group17_cs301/src/lib/arithmetic.c:80-112 | the 64/32 divisions for a 32-bit divisor have quotients below 2^32: no trap |
| `Arithmetic.WideDivisor` | projmod#3_OS-20211125T213946Z-001/projmod#3_OS/project-module-3-group17_cs301/src/lib/arithmetic.c:113-126 | the division for a wide divisor does not trap, and its shifted result is the quotient or one more |
| `Arithmetic.EstimateClose` | projmod#3_OS-20211125T213946Z-001/projmod#3_OS/project-module-3-group17_cs301/src/lib/arithmetic.c:113-126 | the estimate as the code computes it, in 64-bit words, is positive and at most one too large |
| `Arithmetic.Udiv64Correct` | projmod#3_OS-20211125T213946Z-001/projmod#3_OS/project-module-3-group17_cs301/src/lib/arithmetic.c:78-127 | `udiv64` is floor division for all 64-bit n and nonzero d |
| `Arithmetic.Umod64IsRemainder` | projmod#3_OS-20211125T213946Z-001/projmod#3_OS/project-module-3-group17_cs301/src/lib/arithmetic.c:132-135 | the result is the remainder modulo 2^32; it is the remainder if and only if that fits 32 bits |
| `Arithmetic.Sdiv64IsTrunc` | projmod#3_OS-20211125T213946Z-001/projmod#3_OS/project-module-3-group17_cs301/src/lib/arithmetic.c:140-146 | truncating division, if and only if it is not INT64_MIN / -1 |
| `Arithmetic.Smod64IsRemainder` | projmod#3_OS-20211125T213946Z-001/projmod#3_OS/project-module-3-group17_cs301/src/lib/arithmetic.c:151-154 | the remainder cut to 32 bits; exact if and only if it fits |
| `Bitmap.Bitmap.Mark` | projmod#3_OS-20211125T213946Z-001/projmod#3_OS/project-module-3-group17_cs301/src/lib/kernel/bitmap.c:157-166 | one bit becomes true, in words with a mask |
| `Bitmap.Bitmap.Reset` | projmod#3_OS-20211125T213946Z-001/projmod#3_OS/project-module-3-group17_cs301/src/lib/kernel/bitmap.c:170-179 | one bit becomes false |
| `Bitmap.Bitmap.Flip` | projmod#3_OS-20211125T213946Z-001/projmod#3_OS/project-module-3-group17_cs301/src/lib/kernel/bitmap.c:185-194 | one bit is inverted |
| `Bitmap.Bitmap.SetMultiple` | projmod#3_OS-20211125T213946Z-001/projmod#3_OS/project-module-3-group17_cs301/src/lib/kernel/bitmap.c:218-228 | exactly the bits of the range get the value |
| `Bitmap.Bitmap.Contains` | projmod#3_OS-20211125T213946Z-001/projmod#3_OS/project-module-3-group17_cs301/src/lib/kernel/bitmap.c:251-263 | decides whether the range holds the value |
| `Bitmap.Bitmap.Scan` | projmod#3_OS-20211125T213946Z-001/projmod#3_OS/project-module-3-group17_cs301/src/lib/kernel/bitmap.c:296-310 | the first group of equal bits, or none exists |
| `Bitmap.Bitmap.ScanAndFlip` | projmod#3_OS-20211125T213946Z-001/projmod#3_OS/project-module-3-group17_cs301/src/lib/kernel/bitmap.c:320-326 | the first group, inverted; nothing changes when there is none |
| `Palloc.Pool.GetMultiple` | projmod#3_OS-20211125T213946Z-001/projmod#3_OS/project-module-3-group17_cs301/src/threads/palloc.c:71-101 | first fit of consecutive free pages; the null pointer exactly when there are none or none are asked for |
| `Palloc.Pool.FreeMultiple` | projmod#3_OS-20211125T213946Z-001/projmod#3_OS/project-module-3-group17_cs301/src/threads/palloc.c:118-142 | exactly those pages become free |
| `Palloc.PoolsDisjoint` | projmod#3_OS-20211125T213946Z-001/projmod#3_OS/project-module-3-group17_cs301/src/threads/palloc.c:46-62 | the kernel and the user pool do not overlap and stay within free memory |
| `Malloc.Heap.FindDesc` | projmod#3_OS-20211125T213946Z-001/projmod#3_OS/project-module-3-group17_cs301/src/threads/malloc.c:101-107 | the smallest size class that is large enough, or none |
| `Malloc.Heap.Malloc` | projmod#3_OS-20211125T213946Z-001/projmod#3_OS/project-module-3-group17_cs301/src/threads/malloc.c:90-154 | a new block, not in use before, in the smallest size class that will do or in as few pages as will do; the pool loses exactly the pages that come with it (none, if other live blocks share its page); the null pointer only for want of pages, and then nothing changes |
| `Malloc.Heap.MallocBig` | projmod#3_OS-20211125T213946Z-001/projmod#3_OS/project-module-3-group17_cs301/src/threads/malloc.c:108-123 | a big block is alone in its pages, and exactly these are taken from the pool |
| `Malloc.Heap.FillFreeList` | projmod#3_OS-20211125T213946Z-001/projmod#3_OS/project-module-3-group17_cs301/src/threads/malloc.c:127-146 | an empty free list is refilled with all blocks of a new arena |
| `Malloc.Heap.MallocSmall` | projmod#3_OS-20211125T213946Z-001/projmod#3_OS/project-module-3-group17_cs301/src/threads/malloc.c:125-153 | the first block of the list is handed out if there is one, and no page is taken then; else one page is |
| `Malloc.Heap.Free` | projmod#3_OS-20211125T213946Z-001/projmod#3_OS/project-module-3-group17_cs301/src/threads/malloc.c:219-264 | exactly that block leaves the set of live blocks; the pages of a big block, or the page of a small one that was alone on it, go back to the pool, and no others; pages that are not the heap's stay as they are |
| `Malloc.Heap.FreeSmall` | projmod#3_OS-20211125T213946Z-001/projmod#3_OS/project-module-3-group17_cs301/src/threads/malloc.c:228-252 | the block goes to its list; if it was the last live one on its page, the arena is dismantled and exactly that page given back |
| `Malloc.Heap.RemoveArenaBlocks` | projmod#3_OS-20211125T213946Z-001/projmod#3_OS/project-module-3-group17_cs301/src/threads/malloc.c:241-247 | all blocks of the arena, and no others, leave the list |
| `MallocModel.BlockInArena` | projmod#3_OS-20211125T213946Z-001/projmod#3_OS/project-module-3-group17_cs301/src/threads/malloc.c:268-294 | `block_to_arena` inverts `arena_to_block`; every block lies behind the header and inside its page, at a multiple of its size |
| `MallocModel.LiveDisjoint` | projmod#3_OS-20211125T213946Z-001/projmod#3_OS/project-module-3-group17_cs301/src/threads/malloc.c:87-154 | live blocks do not overlap and are at least as large as asked for |
| `MallocModel.LiveNotFree` | projmod#3_OS-20211125T213946Z-001/projmod#3_OS/project-module-3-group17_cs301/src/threads/malloc.c:216-264 | no live block is on a free list |
| `MallocPages.PagesHoldLive` | projmod#3_OS-20211125T213946Z-001/projmod#3_OS/project-module-3-group17_cs301/src/threads/malloc.c:90-264 | a page belongs to the heap if and only if a live block lies on it: no page is kept for nothing |
| `MallocPages.NothingLive` | projmod#3_OS-20211125T213946Z-001/projmod#3_OS/project-module-3-group17_cs301/src/threads/malloc.c:219-264 | when nothing is live, all that was taken from the pool has been given back |
| `MallocPages.PagesReturn` | projmod#3_OS-20211125T213946Z-001/projmod#3_OS/project-module-3-group17_cs301/src/threads/malloc.c:219-264 | freeing what was just allocated leaves the page pool as it was |
| `MallocPages.PutAlone` | projmod#3_OS-20211125T213946Z-001/projmod#3_OS/project-module-3-group17_cs301/src/threads/malloc.c:236-247 | `free_cnt` reaches blocks_per_arena exactly when the freed block was the only live one on its page |
| `BufferCache.Cache.EntryBySector` | projmod#3_OS-20211125T213946Z-001/projmod#3_OS/project-module-3-group17_cs301/src/filesys/cache.c:328-339 | the one entry that holds the sector, or none |
| `BufferCache.Cache.GetFreeEntry` | projmod#3_OS-20211125T213946Z-001/projmod#3_OS/project-module-3-group17_cs301/src/filesys/cache.c:242-298 | the second-chance scan takes the first entry, among those without readers and with a free lock, of the lowest rank (empty or already in second chance, clean, dirty), in the sweep of that number and so before its third sweep ends; exactly the entries it passes in time get their second chance; a dirty victim is written back |
| `BufferCache.Cache.Flush` | projmod#3_OS-20211125T213946Z-001/projmod#3_OS/project-module-3-group17_cs301/src/filesys/cache.c:300-304 | the sector is written; the disk as seen by users does not change |
| `BufferCache.Cache.GetEntry` | projmod#3_OS-20211125T213946Z-001/projmod#3_OS/project-module-3-group17_cs301/src/filesys/cache.c:110-151 | afterwards the entry holds the sector, whatever was evicted; a hit changes nothing |
| `BufferCache.Cache.BlockRead` | projmod#3_OS-20211125T213946Z-001/projmod#3_OS/project-module-3-group17_cs301/src/filesys/cache.c:71-104 | returns the bytes of the flat disk |
| `BufferCache.Cache.BlockWrite` | projmod#3_OS-20211125T213946Z-001/projmod#3_OS/project-module-3-group17_cs301/src/filesys/cache.c:168-217 | changes exactly those bytes of the flat disk, also when a whole sector is written without reading it |
| `BufferCache.Cache.FlushAll` | projmod#3_OS-20211125T213946Z-001/projmod#3_OS/project-module-3-group17_cs301/src/filesys/cache.c:219-237 | afterwards the device equals the disk as users see it |
| `BufferCache.Cache.Remove` | projmod#3_OS-20211125T213946Z-001/projmod#3_OS/project-module-3-group17_cs301/src/filesys/cache.c:306-325 | forgets the cached sector: it reads as the device holds it |
| `BufferCache.Cache.Run` | projmod#3_OS-20211125T213946Z-001/projmod#3_OS/project-module-3-group17_cs301/src/filesys/cache.c:71-237 | every run of partial reads, writes and flushes returns what the same run on a flat disk returns |
| `BufferCache.ViewOfEntry` | projmod#3_OS-20211125T213946Z-001/projmod#3_OS/project-module-3-group17_cs301/src/filesys/cache.c:328-339 | any entry of a sector is the one that counts: no sector is cached twice |
| `ThreadSystem.Threads.Schedule` | projmod#3_OS-20211125T213946Z-001/projmod#3_OS/project-module-3-group17_cs301/src/threads/thread.c:646-717 | from a state in which the running thread has just changed its status, back to the whole invariant: the front of the queue, or the idle thread if and only if it was empty, is the one running thread; no other thread changes |
| `ThreadSystem.Threads.Unblock` | projmod#3_OS-20211125T213946Z-001/projmod#3_OS/project-module-3-group17_cs301/src/threads/thread.c:319-331 | at its assertion: the thread was not on the ready list, is its last now, and that list is still exactly the ready threads, each once |
| `ThreadSystem.Threads.Yield` | projmod#3_OS-20211125T213946Z-001/projmod#3_OS/project-module-3-group17_cs301/src/threads/thread.c:404-418 | keeps the whole invariant; the thread goes behind all that were ready, and the first of them runs (itself if it was alone) |
| `ThreadSystem.Threads.Exit` | projmod#3_OS-20211125T213946Z-001/projmod#3_OS/project-module-3-group17_cs301/src/threads/thread.c:383-400 | keeps the whole invariant; the dying thread is on no list and the front of the ready list runs |
| `ThreadSystem.Threads.IdleBlock` | projmod#3_OS-20211125T213946Z-001/projmod#3_OS/project-module-3-group17_cs301/src/threads/thread.c:531-558 | keeps the whole invariant; the idle thread is on no list, and runs again if and only if nobody was ready |
| `ThreadSystem.Threads.Create` | projmod#3_OS-20211125T213946Z-001/projmod#3_OS/project-module-3-group17_cs301/src/threads/thread.c:249-296 | keeps the whole invariant; the new thread is blocked, on no list, and its creator is the only thread that will unblock it |
| `ThreadSystem.Threads.ThreadTick` | projmod#3_OS-20211125T213946Z-001/projmod#3_OS/project-module-3-group17_cs301/src/threads/thread.c:191-227 | the wake-up loop and the end of the time slice are the `Tick` transition and keep the whole invariant |
| `ThreadSystem.Threads.PlaceFor` | projmod#3_OS-20211125T213946Z-001/projmod#3_OS/project-module-3-group17_cs301/src/threads/thread.c:423-440 | the place behind the last entry that is due no later |
| `ThreadSystem.Threads.ThreadSleep` | projmod#3_OS-20211125T213946Z-001/projmod#3_OS/project-module-3-group17_cs301/src/threads/thread.c:419-451 | the backward search and the block are the `CallSleep` transition; the thread is blocked alone on the list of its fresh semaphore and the front of the ready list runs |
| `ThreadSystem.Threads.SemaUp` | projmod#3_OS-20211125T213946Z-001/projmod#3_OS/project-module-3-group17_cs301/src/threads/synch.c:109-121 | keeps scheduler, wait lists and the bound on woken threads; one unit more, the first waiter goes to the back of the ready list and is on no wait list, no other list or thread changes |
| `ThreadSystem.Threads.SemaDown` | projmod#3_OS-20211125T213946Z-001/projmod#3_OS/project-module-3-group17_cs301/src/threads/synch.c:61-76 | keeps the whole invariant; at zero the thread is blocked as the last on the list and another runs, else it has a unit: of a lock that nobody owned, or of its own wait, whose semaphore is used up |
| `ThreadSystem.Threads.SemaTryDown` | projmod#3_OS-20211125T213946Z-001/projmod#3_OS/project-module-3-group17_cs301/src/threads/synch.c:84-102 | takes a unit if there is one, and says so |
| `ThreadSystem.Threads.LockTryAcquire` | projmod#3_OS-20211125T213946Z-001/projmod#3_OS/project-module-3-group17_cs301/src/threads/synch.c:219-230 | takes the lock's unit if it is there |
| `ThreadSystem.Threads.CondWait` | projmod#3_OS-20211125T213946Z-001/projmod#3_OS/project-module-3-group17_cs301/src/threads/synch.c:302-316 | keeps the whole invariant; a fresh semaphore with value zero is the last on this condition's list and no other, while the lock is still owned |
| `ThreadSystem.Threads.CondSignal` | projmod#3_OS-20211125T213946Z-001/projmod#3_OS/project-module-3-group17_cs301/src/threads/synch.c:326-352 | keeps the whole invariant; the first waiter leaves the list and is on no other, and its semaphore is still at zero: nobody is woken yet |
| `ThreadSystem.Threads.UpAndGo` | projmod#3_OS-20211125T213946Z-001/projmod#3_OS/project-module-3-group17_cs301/src/threads/synch.c:238-250 | keeps the whole invariant; one unit more and the first waiter ready; a lock is then free, with value one and without owner or holder; the wait's semaphore has its one unit |
| `ThreadSystem.Threads.Go` | projmod#3_OS-20211125T213946Z-001/projmod#3_OS/project-module-3-group17_cs301/src/threads/synch.c:60-352 | the running thread's next step inside synch.c keeps the invariant |
| `ThreadSystem.Threads.Step` | projmod#3_OS-20211125T213946Z-001/projmod#3_OS/project-module-3-group17_cs301/src/threads/synch.c:60-352 | every call, step and interrupt acts on the variables of the kernel as in the machine and keeps the whole invariant; what the calls have done when they return is stated by the rows of `KernelCalls` |
| `KernelModel.InsertedAt` | projmod#3_OS-20211125T213946Z-001/projmod#3_OS/project-module-3-group17_cs301/src/threads/thread.c:423-440 | the sleep queue is sorted by time, first come first served among equals |
| `KernelSteps.WakeAllOk` | projmod#3_OS-20211125T213946Z-001/projmod#3_OS/project-module-3-group17_cs301/src/threads/thread.c:204-223 | the wake-up loop releases exactly the sleepers with wakeup_time < now: their threads are appended to the ready list in the order of the queue |
| `KernelRuns.NextGood` | projmod#3_OS-20211125T213946Z-001/projmod#3_OS/project-module-3-group17_cs301/src/threads/synch.c:60-352 | every step of every thread and every interrupt keeps the whole invariant |
| `KernelRuns.TraceGood` | projmod#3_OS-20211125T213946Z-001/projmod#3_OS/project-module-3-group17_cs301/src/threads/thread.c:191-451 | so it holds in every state of every run, in every interleaving |
| `KernelTheorems.OneRuns` | projmod#3_OS-20211125T213946Z-001/projmod#3_OS/project-module-3-group17_cs301/src/threads/thread.c:303-418 | in every reachable state one thread is running and the ready list is exactly the ready threads but the idle one, each once |
| `KernelTheorems.InOneList` | projmod#3_OS-20211125T213946Z-001/projmod#3_OS/project-module-3-group17_cs301/src/threads/thread.h:80-85 | a thread's list element is in one list at most; wait lists hold blocked threads only |
| `KernelTheorems.ValueCounts` | projmod#3_OS-20211125T213946Z-001/projmod#3_OS/project-module-3-group17_cs301/src/threads/synch.c:60-121 | in every run value = initial value + ups - completed downs |
| `KernelTheorems.NoLostWakeup` | projmod#3_OS-20211125T213946Z-001/projmod#3_OS/project-module-3-group17_cs301/src/threads/synch.c:60-121 | while a thread is on the wait list the value is at most the number of woken threads that have not yet retested, and if it is positive one of them is running or ready |
| `KernelTheorems.MutualExclusion` | projmod#3_OS-20211125T213946Z-001/projmod#3_OS/project-module-3-group17_cs301/src/threads/synch.c:196-250 | no two threads have taken a lock and not given it back (that callers do take it is `AcquireReturns`) |
| `KernelTheorems.HolderIsOwner` | projmod#3_OS-20211125T213946Z-001/projmod#3_OS/project-module-3-group17_cs301/src/threads/synch.c:196-261 | `holder` is that thread, except just before it is set and just after it is cleared; the semaphore is 1 exactly when no thread has the lock |
| `KernelTheorems.CondFifo` | projmod#3_OS-20211125T213946Z-001/projmod#3_OS/project-module-3-group17_cs301/src/threads/synch.c:301-352 | every step of every thread or interrupt leaves the lists of all conditions as they are, but that a wait appends its fresh semaphore and a signal takes the first off |
| `KernelTheorems.SignalsInOrder` | projmod#3_OS-20211125T213946Z-001/projmod#3_OS/project-module-3-group17_cs301/src/threads/synch.c:301-352 | in every run, of two waits on one condition the later one is signalled only after the earlier one has been |
| `KernelTheorems.SignalNotLost` | projmod#3_OS-20211125T213946Z-001/projmod#3_OS/project-module-3-group17_cs301/src/threads/synch.c:301-336 | from a signal on, until the chosen waiter goes on, the raise of its semaphore is still to come or the unit is there and the waiter is not blocked: also when the signal comes between lock_release and sema_down |
| `KernelTheorems.NoSpuriousWakeup` | projmod#3_OS-20211125T213946Z-001/projmod#3_OS/project-module-3-group17_cs301/src/threads/synch.c:301-316 | a waiter that has not been signalled finds its semaphore at zero, and it is on one condition's list only |
| `KernelCalls.AcquireReturns` | projmod#3_OS-20211125T213946Z-001/projmod#3_OS/project-module-3-group17_cs301/src/threads/synch.c:196-210 | in every run a thread that returns from `lock_acquire` has taken the lock since its call, at a moment when nobody had it, and is its holder until it gives it back |
| `KernelCalls.ReleaseReturns` | projmod#3_OS-20211125T213946Z-001/projmod#3_OS/project-module-3-group17_cs301/src/threads/synch.c:238-250 | `lock_release` returns after the lock was given back, with holder NULL and value 1 at that moment |
| `KernelCalls.KeepsLock` | projmod#3_OS-20211125T213946Z-001/projmod#3_OS/project-module-3-group17_cs301/src/threads/synch.c:238-250 | nobody but the thread that has a lock can give it back |
| `KernelCalls.DownReturns` | projmod#3_OS-20211125T213946Z-001/projmod#3_OS/project-module-3-group17_cs301/src/threads/synch.c:60-76 | `sema_down` returns with a unit that the thread took in between |
| `KernelCalls.WaitReturns` | projmod#3_OS-20211125T213946Z-001/projmod#3_OS/project-module-3-group17_cs301/src/threads/synch.c:301-316 | `cond_wait` returns only after the thread gave the lock back, was signalled and took the lock again, in this order; it has the lock when it returns |
| `KernelCalls.SignalReturns` | projmod#3_OS-20211125T213946Z-001/projmod#3_OS/project-module-3-group17_cs301/src/threads/synch.c:325-336 | who signals a waiter raises its semaphore before it does anything else |
| `KernelCalls.BroadcastReturns` | projmod#3_OS-20211125T213946Z-001/projmod#3_OS/project-module-3-group17_cs301/src/threads/synch.c:344-352 | `cond_broadcast` returns when it has found the list empty, and all who waited at its call have been signalled since |
| `KernelCalls.CreateReturns` | projmod#3_OS-20211125T213946Z-001/projmod#3_OS/project-module-3-group17_cs301/src/threads/thread.c:249-296 | `thread_create` returns when the new thread, blocked until then, has joined the end of the ready list |
| `KernelCalls.DeadForever` | projmod#3_OS-20211125T213946Z-001/projmod#3_OS/project-module-3-group17_cs301/src/threads/thread.c:383-400 | a thread that has called `thread_exit` never runs again |
| `KernelCalls.Progress` | projmod#3_OS-20211125T213946Z-001/projmod#3_OS/project-module-3-group17_cs301/src/threads/synch.c:60-352 | each step of a thread inside a call brings it nearer to its return, or blocks it on a semaphore that is zero |
| `KernelCalls.StepDoing` | projmod#3_OS-20211125T213946Z-001/projmod#3_OS/project-module-3-group17_cs301/src/threads/synch.c:60-352 | a thread inside a call goes on by its own steps only, whatever others and interrupts do |
| `KernelTheorems.SleepExact` | projmod#3_OS-20211125T213946Z-001/projmod#3_OS/project-module-3-group17_cs301/src/threads/thread.c:204-223 | a thread that calls `thread_sleep` at time t with deadline u stays blocked while the time is at most max(t, u) and is released by tick max(t, u) + 1 |
| `KernelTheorems.SleepsOn` | projmod#3_OS-20211125T213946Z-001/projmod#3_OS/project-module-3-group17_cs301/src/threads/thread.c:419-451 | until then its entry is in the sleep queue and it is on its semaphore's wait list |
| `KernelTheorems.ReadyOk` | projmod#3_OS-20211125T213946Z-001/projmod#3_OS/project-module-3-group17_cs301/src/threads/thread.c:646-717 | every step either dispatches the front of the ready list or only appends to it; a time slice is four ticks |
| `KernelTheorems.BoundedWaiting` | projmod#3_OS-20211125T213946Z-001/projmod#3_OS/project-module-3-group17_cs301/src/threads/thread.c:404-418 | a thread at index k of the ready list is dispatched within k + 1 calls of `schedule` and within 4 * (k + 1) ticks, whatever happens in between |
| `HashTable.TurnOffKeepsHigh` | projmod#3_OS-20211125T213946Z-001/projmod#3_OS/project-module-3-group17_cs301/src/lib/kernel/hash.c:328-333 | clearing the lowest set bit of a number that is no power of two keeps its highest bit |
| `HashTable.IdealBuckets` | projmod#3_OS-20211125T213946Z-001/projmod#3_OS/project-module-3-group17_cs301/src/lib/kernel/hash.c:366-372 | the loop ends with the largest power of two that is at most max(4, elem_cnt / 2) |
| `HashTable.IdealUnique` | projmod#3_OS-20211125T213946Z-001/projmod#3_OS/project-module-3-group17_cs301/src/lib/kernel/hash.c:366-372 | that number is unique and gives two or three elements per bucket from eight elements on |
| `HashTable.BucketIsRemainder` | projmod#3_OS-20211125T213946Z-001/projmod#3_OS/project-module-3-group17_cs301/src/lib/kernel/hash.c:305-310 | masking with bucket_cnt - 1 is the remainder by bucket_cnt |
| `HashTable.InOwnBucket` | projmod#3_OS-20211125T213946Z-001/projmod#3_OS/project-module-3-group17_cs301/src/lib/kernel/hash.c:305-326 | an element equal to e can only be in e's bucket |
| `HashTable.Hash.FindElem` | projmod#3_OS-20211125T213946Z-001/projmod#3_OS/project-module-3-group17_cs301/src/lib/kernel/hash.c:315-326 | finds an equal element of the bucket exactly when there is one |
| `HashTable.Hash.Find` | projmod#3_OS-20211125T213946Z-001/projmod#3_OS/project-module-3-group17_cs301/src/lib/kernel/hash.c:132-135 | the equal element of the set, exactly when there is one |
| `HashTable.Hash.Insert` | projmod#3_OS-20211125T213946Z-001/projmod#3_OS/project-module-3-group17_cs301/src/lib/kernel/hash.c:99-110 | adds e unless an equal element is there, which is returned; through any rehash, also a failed one; with memory the number of buckets is the ideal one afterwards |
| `HashTable.Hash.Replace` | projmod#3_OS-20211125T213946Z-001/projmod#3_OS/project-module-3-group17_cs301/src/lib/kernel/hash.c:115-127 | e takes the place of the equal element, which is returned; with memory the number of buckets is the ideal one afterwards |
| `HashTable.Hash.Delete` | projmod#3_OS-20211125T213946Z-001/projmod#3_OS/project-module-3-group17_cs301/src/lib/kernel/hash.c:145-154 | exactly the equal element leaves the set, and with memory the number of buckets follows |
| `HashTable.Hash.MoveAll` | projmod#3_OS-20211125T213946Z-001/projmod#3_OS/project-module-3-group17_cs301/src/lib/kernel/hash.c:395-410 | moving every element keeps the multiset and puts each into the bucket of its hash |
| `HashTable.Hash.Rehash` | projmod#3_OS-20211125T213946Z-001/projmod#3_OS/project-module-3-group17_cs301/src/lib/kernel/hash.c:352-413 | same set, ideal number of buckets; unchanged if the allocation fails |
| `HashTable.HashIterator.Next` | projmod#3_OS-20211125T213946Z-001/projmod#3_OS/project-module-3-group17_cs301/src/lib/kernel/hash.c:219-235 | the k-th call returns the k-th element in bucket order, then none |
| `HashTable.EachOnce` | projmod#3_OS-20211125T213946Z-001/projmod#3_OS/project-module-3-group17_cs301/src/lib/kernel/hash.c:182-244 | that order contains every element of the set, each once, elem_cnt in all |
| `ArgvStack.StrTok` | projmod#3_OS-20211125T213946Z-001/projmod#3_OS/project-module-3-group17_cs301/src/lib/string.c:234-275 | returns the next maximal word without spaces and leaves the rest of the words behind the saved position; the buffer is unchanged but for one space that becomes the NUL before it |
| `ArgvStack.TokensSplit` | projmod#3_OS-20211125T213946Z-001/projmod#3_OS/project-module-3-group17_cs301/src/lib/string.c:209-275 | the words of a line: a word ends at the next space or with the line, and spaces make no words |
| `ArgvStack.UserStack.CountArguments` | projmod#3_OS-20211125T213946Z-001/projmod#3_OS/project-module-3-group17_cs301/src/userprog/process.c:593-597 | the number of words, at most ARG_MAX |
| `ArgvStack.UserStack.PushStrings` | projmod#3_OS-20211125T213946Z-001/projmod#3_OS/project-module-3-group17_cs301/src/userprog/process.c:603-614 | the strings lie below each other with their NULs; argv holds their addresses |
| `ArgvStack.UserStack.Align` | projmod#3_OS-20211125T213946Z-001/projmod#3_OS/project-module-3-group17_cs301/src/userprog/process.c:616-624 | zero bytes down to a multiple of four |
| `ArgvStack.UserStack.PushVector` | projmod#3_OS-20211125T213946Z-001/projmod#3_OS/project-module-3-group17_cs301/src/userprog/process.c:626-632 | argv[argc] to argv[0] lie in order |
| `ArgvStack.UserStack.SetupStack` | projmod#3_OS-20211125T213946Z-001/projmod#3_OS/project-module-3-group17_cs301/src/userprog/process.c:557-652 | for every command line of at most ARG_MAX words: `esp` is word-aligned at PHYS_BASE minus the size of the stack; the new program decodes exactly the words if and only if `Fits`, that is, the stack is at most one page, or one word more and what the page held happens to be argc; the return address is stored exactly below one page |
| `ArgvStack.ArgsDecode` | projmod#3_OS-20211125T213946Z-001/projmod#3_OS/project-module-3-group17_cs301/src/userprog/process.c:603-645 | with the vector and the strings in place, decoding gives the words if and only if argc is their number; the word behind them is null |
| `ArgvStack.FitsZeroed` | projmod#3_OS-20211125T213946Z-001/projmod#3_OS/project-module-3-group17_cs301/src/userprog/process.c:603-645 | on a zeroed page the words come out right if and only if the stack is at most one page |
| `ArgvStack.LongLines` | projmod#3_OS-20211125T213946Z-001/projmod#3_OS/project-module-3-group17_cs301/src/userprog/process.c:608-645 | a word of 4075 letters fills exactly one page and comes out right; one of 4076 letters does not |
| `ArgvStack.ExampleStack` | projmod#3_OS-20211125T213946Z-001/projmod#3_OS/project-module-3-group17_cs301/src/userprog/process.c:557-652 | for `/bin/ls -l foo bar` the stack begins at 0xbfffffcc, with each string and each byte of an address in its place |
| `ArgvStack.Disjoint` | projmod#3_OS-20211125T213946Z-001/projmod#3_OS/project-module-3-group17_cs301/src/userprog/process.c:603-645 | strings, pointers and frame do not overlap |
| `ArgvStack.BufferFits` | projmod#3_OS-20211125T213946Z-001/projmod#3_OS/project-module-3-group17_cs301/src/userprog/process.h:6-17 | every command line that fits the argument buffer has at most ARG_MAX words and a stack that fits the page |
| `PageDir.Indices` | projmod#3_OS-20211125T213946Z-001/projmod#3_OS/project-module-3-group17_cs301/src/threads/pte.h:27-38 | the address bits give a directory index and a table index below 1024 |
| `PageDir.PteRoundTrip` | projmod#3_OS-20211125T213946Z-001/projmod#3_OS/project-module-3-group17_cs301/src/threads/pte.h:83-104 | frame address and writable flag survive packing; the entry is the address plus 7 or 5: present, for user code, writable or not, neither accessed nor dirty |
| `PageDir.PdeRoundTrip` | projmod#3_OS-20211125T213946Z-001/projmod#3_OS/project-module-3-group17_cs301/src/threads/pte.h:70-81 | a directory entry gives its page table back and is its address plus 7: present, for user code, writable, so that the page's own entry decides |
| `PageDir.UseFlags` | projmod#3_OS-20211125T213946Z-001/projmod#3_OS/project-module-3-group17_cs301/src/threads/pte.h:67-68 | the accessed and the dirty flag are the bits that the processor sets |
| `PageDir.PageDirectory.LookupPage` | projmod#3_OS-20211125T213946Z-001/projmod#3_OS/project-module-3-group17_cs301/src/userprog/pagedir.c:58-88 | the slot of a page; creating a table changes no mapping, no other directory entry and no kernel entry |
| `PageDir.PageDirectory.SetPage` | projmod#3_OS-20211125T213946Z-001/projmod#3_OS/project-module-3-group17_cs301/src/userprog/pagedir.c:100-120 | maps one page, clean and not accessed: user code may read it, and write it if and only if it is writable, at both levels; all other pages and the kernel's entries stay; fails only without memory |
| `PageDir.PageDirectory.GetPageOf` | projmod#3_OS-20211125T213946Z-001/projmod#3_OS/project-module-3-group17_cs301/src/userprog/pagedir.c:126-138 | the kernel address of a user address exactly when it is mapped |
| `PageDir.PageDirectory.ClearPage` | projmod#3_OS-20211125T213946Z-001/projmod#3_OS/project-module-3-group17_cs301/src/userprog/pagedir.c:144-157 | unmaps one page, so that user code may neither read nor write it, and keeps its other bits |
| `PageDir.PageDirectory.TestFlag` | projmod#3_OS-20211125T213946Z-001/projmod#3_OS/project-module-3-group17_cs301/src/userprog/pagedir.c:163-200 | reads one flag of one page, also of one that is not present |
| `PageDir.PageDirectory.SetFlag` | projmod#3_OS-20211125T213946Z-001/projmod#3_OS/project-module-3-group17_cs301/src/userprog/pagedir.c:177-217 | changes exactly one bit of one entry, present or not; the address, all other bits and all other pages stay |
| `PageDir.PageDirectory.Store` | projmod#3_OS-20211125T213946Z-001/projmod#3_OS/project-module-3-group17_cs301/src/userprog/pagedir.c:58-88 | distinct pages never share an entry |
| `PageDir.PageDirectory.SameRights` | projmod#3_OS-20211125T213946Z-001/projmod#3_OS/project-module-3-group17_cs301/src/userprog/pagedir.c:58-217 | a page that an operation does not concern is mapped as before, with the same rights for user code |
| `HeapSort.Heapify` | projmod#3_OS-20211125T213946Z-001/projmod#3_OS/project-module-3-group17_cs301/src/lib/stdlib.c:96-123 | restores the heap from node i on, ends, and permutes the first cnt elements only |
| `HeapSort.HeapStep` | projmod#3_OS-20211125T213946Z-001/projmod#3_OS/project-module-3-group17_cs301/src/lib/stdlib.c:101-122 | a swap with the larger child moves the only violation one level down |
| `HeapSort.RootIsGreatest` | projmod#3_OS-20211125T213946Z-001/projmod#3_OS/project-module-3-group17_cs301/src/lib/stdlib.c:131-152 | the root of a heap is a greatest element |
| `HeapSort.Sort` | projmod#3_OS-20211125T213946Z-001/projmod#3_OS/project-module-3-group17_cs301/src/lib/stdlib.c:131-152 | sorted, same multiset, for every count and every total preorder |
| `HeapSort.BinarySearch` | projmod#3_OS-20211125T213946Z-001/projmod#3_OS/project-module-3-group17_cs301/src/lib/stdlib.c:184-207 | finds a match exactly when there is one |
| `Ustar.FormatOctal` | projmod#3_OS-20211125T213946Z-001/projmod#3_OS/project-module-3-group17_cs301/src/lib/stdio.c:470-547 | the conversion `%0No` prints the octal digits with leading zeros |
| `Ustar.OctalFits` | projmod#3_OS-20211125T213946Z-001/projmod#3_OS/project-module-3-group17_cs301/src/lib/stdio.c:470-547 | a number below 8^N takes exactly N digits and is their value |
| `Ustar.ParseOctalField` | projmod#3_OS-20211125T213946Z-001/projmod#3_OS/project-module-3-group17_cs301/src/lib/ustar.c:129-159 | accepts exactly digits followed by a space or a NUL, of a number that fits a word, and returns it |
| `Ustar.OctalRoundTrip` | projmod#3_OS-20211125T213946Z-001/projmod#3_OS/project-module-3-group17_cs301/src/lib/ustar.c:129-159 | parsing a printed field gives the number back |
| `Ustar.StripPrefixes` | projmod#3_OS-20211125T213946Z-001/projmod#3_OS/project-module-3-group17_cs301/src/lib/ustar.c:66-73 | drops the prefixes `/`, `./` and `../`; ends |
| `Ustar.StripIsClean` | projmod#3_OS-20211125T213946Z-001/projmod#3_OS/project-module-3-group17_cs301/src/lib/ustar.c:59-73 | what is left has none of them, is neither empty nor `..`, and stripping again changes nothing |
| `Ustar.StripKeeps` | projmod#3_OS-20211125T213946Z-001/projmod#3_OS/project-module-3-group17_cs301/src/lib/ustar.c:59-73 | a name is kept whole if and only if it has no such prefix and is neither empty nor `..` |
| `Ustar.StripDrops` | projmod#3_OS-20211125T213946Z-001/projmod#3_OS/project-module-3-group17_cs301/src/lib/ustar.c:59-73 | each of the prefixes `/`, `./` and `../` is dropped by itself, so nothing else is |
| `Ustar.CalculateChksum` | projmod#3_OS-20211125T213946Z-001/projmod#3_OS/project-module-3-group17_cs301/src/lib/ustar.c:36-54 | the sum of the octets with the checksum field as spaces |
| `Ustar.ChecksumOfRest` | projmod#3_OS-20211125T213946Z-001/projmod#3_OS/project-module-3-group17_cs301/src/lib/ustar.c:36-54 | it does not depend on its own field and fits it |
| `Ustar.ChecksumIsSum` | projmod#3_OS-20211125T213946Z-001/projmod#3_OS/project-module-3-group17_cs301/src/lib/ustar.c:36-54 | it is the sum of all 512 octets of the header with eight spaces in the checksum field |
| `Ustar.MakeHeader` | projmod#3_OS-20211125T213946Z-001/projmod#3_OS/project-module-3-group17_cs301/src/lib/ustar.c:83-117 | fails exactly for names that strip to more than 99 bytes; otherwise all 17 fields are laid out |
| `Ustar.Offsets` | projmod#3_OS-20211125T213946Z-001/projmod#3_OS/project-module-3-group17_cs301/src/lib/ustar.c:11-33 | the places of the fields follow from the sizes in the packed struct; the modes are 0644 and 0755 |
| `Ustar.ParseHeader` | projmod#3_OS-20211125T213946Z-001/projmod#3_OS/project-module-3-group17_cs301/src/lib/ustar.c:181-227 | what a header says, with every error in its order |
| `Ustar.Accepted` | projmod#3_OS-20211125T213946Z-001/projmod#3_OS/project-module-3-group17_cs301/src/lib/ustar.c:181-227 | a header is taken for a file or directory if and only if all its fields are in order |
| `Ustar.BadChecksum` | projmod#3_OS-20211125T213946Z-001/projmod#3_OS/project-module-3-group17_cs301/src/lib/ustar.c:205-208 | a header that does not carry its own checksum is refused, unless it is the blank end of the archive |
| `Ustar.DamageDetected` | projmod#3_OS-20211125T213946Z-001/projmod#3_OS/project-module-3-group17_cs301/src/lib/ustar.c:36-208 | if one octet outside the checksum field of an accepted header is changed, the header is refused |
| `Ustar.RoundTrip` | projmod#3_OS-20211125T213946Z-001/projmod#3_OS/project-module-3-group17_cs301/src/lib/ustar.c:83-227 | parsing a made header gives the stripped name, the type and the size of a regular file (0 for a directory) if and only if the size is not negative |

## Left out

- Doubly indirect blocks, offsets beyond the singly indirect range and the release of sectors in `inode_close`: their index arithmetic does not match the layout.
- Sharing of open inodes, directories and path lookup, and the byte layout of an inode on its sector (a sector is a datatype of data, index or inode).
- Inode.CreateInode: does not say which sectors a failed creation leaves taken.
- Persistence of the free map through its own file.
- mmap and munmap, writable flags of user pages, and the return of swap slots when a process exits.
- Paging.Vm.SelectFrameToEvict: the order of the frame hash table is an arbitrary enumeration of it.
- Page faults and evictions as concurrent activities: each fault is one step.
- Concurrency, lock order, the flush and the read-ahead daemon of the buffer cache; `is_allowed` in `bc_block_write` is taken to be false at first, as it has no initial value.
- `calloc`, `realloc` and the locks of `malloc`; sizes near 2^32.
- KernelRuns.Enabled: tid allocation, priorities and `thread_block`/`thread_unblock` calls by drivers are not steps; a semaphore's value does not wrap at 2^32.
- KernelModel.Signals: a condition's list is changed in one step, as its lock protects it; that a condition is always used with the same lock is not required.
- KernelModel.Schedule: a dying thread's page is not freed, and thread identities are not reused.
- HashTable.Hash.RemoveElem: a bucket is a sequence, so that unlinking an element is removing it from the sequence; the pointer level is in `KernelList`.
- `hash_clear`, `hash_apply`, `hash_bytes` and `hash_string`.
- ArgvStack.UserStack.SetupStack: begins after the page is mapped; failing allocations make `setup_stack` return false and are not modelled, nor are command lines of more than ARG_MAX words, which overrun `argvector`.
- TLB invalidation and `pagedir_destroy`.
- HeapSort.Sort: elements are swapped whole and not byte by byte.
- Ustar.FormatOctal: other flags and conversions of `printf`; `memcmp` reading a byte behind a short name.
- Device drivers, interrupt stubs, system call dispatch and assembly (`divl` is given by its contract).
