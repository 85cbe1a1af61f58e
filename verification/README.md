# FOS demand paging in Dafny

A Dafny 4.11 model of the memory side of FOS, a teaching kernel: physical frames and two-level page
tables, the page file, the fault handler with its two-list LRU replacement, the life cycle of
environments, the user heap, and the lists and the scheduler they stand on, with three small
algorithms the kernel and its programs use. Configuration: `USE_KHEAP == 0`, page buffering off, LRU
lists, round robin. `dafny verify dfyconfig.toml` checks everything.

## How it is built

The paging code exists twice. `Kernels.Kernel` (over `Memory.PhysicalMemory`) is the code as it runs:
methods that update `free_frame_list`, `frames_info`, directory and table words inside frames, disk frames
and the lists of each environment. `Machine` is the same behaviour as functions on one immutable state:
who uses which frame, which entry each page has, what each page and disk frame holds, and each
environment's lists. Every method of the kernel is proved to take the machine's state to the value of the
machine's function, and the theorems are about those functions and about whole runs of them.

| file | what it holds |
|---|---|
| `Mmu.dfy` | addresses, machine words and permission bits; words as 32-bit numbers, bit by bit |
| `FrameTable.dfy`, `FrameDemand.dfy` | reference counts, the free list, tables as a map from pages to entries; the frame predictor |
| `Memory.dfy` | `kern/memory_manager.c` over words in frames |
| `Seqs.dfy`, `Lru.dfy` | the two lists as pages: one move-to-front list, no Belady anomaly, what `freeMem` does to it |
| `WorkingSet.dfy` | the three lists of working-set elements |
| `Machine.dfy`, `Paging.dfy`, `FlatMemory.dfy` | the paging machine, its invariant, and its refinement of a flat memory |
| `Freeing.dfy` | `freeMem` on the machine |
| `LifeCycle.dfy`, `Loading.dfy`, `LoadRoom.dfy` | `env_free` and `env_create` on the machine; how much room a program needs |
| `Program.dfy`, `FromBoot.dfy` | the segments of a program, byte by byte; programs created right after boot |
| `Runs.dfy` | runs of several environments: safety, refinement, returning everything |
| `PageRanges.dfy` | `allocateMem` |
| `KernelFacts.dfy`, `Kernel.dfy` | the imperative kernel: `kern/file_manager.c`, `kern/trap.c`, `kern/user_environment.c` |
| `Lists.dfy` | the intrusive lists of `inc/queue.h`, pointer by pointer |
| `Heap.dfy`, `HeapPages.dfy` | `lib/uheap.c` over its three arrays; the pages of its blocks |
| `Sched.dfy` | `kern/sched.c` |
| `QuickSort.dfy`, `StabSearch.dfy`, `PrintParse.dfy` | `user/quicksort.c`, `kern/kdebug.c`, `lib/printfmt.c` with `lib/string.c` |

## The main results

- **Paging is a flat memory.** Over every run of loads, stores, page file growth, `freeMem` calls, creations and exits
  by any number of environments, a load returns the last value stored (`Runs.LoadsAreFlat`); a page is written back
  exactly when its MODIFIED bit is set, and a clean resident page equals its disk copy. Words of a fresh stack
  page count once written: such a page is added without being zeroed. A new environment's memory is the bytes of
  its program's segments, wherever in a page they start, loaded or not, if the zero page is zero and no segment's
  file contents begin and end strictly inside one page (`Programs.CreateProgram`).
- **One list.** ActiveList followed by SecondList is the resident pages by time of last fault, from whatever order
  the run started with; a fault moves a page to the front; the victim is the page whose last fault is the oldest
  (`Lru.ResidentByLastFault`, `Lru.VictimIsOldest`, and for environments in runs `Runs.ResidentInRuns`,
  `Runs.VictimInRuns`).
- **No Belady anomaly.** Nested lists stay nested for every reference string, so a larger SecondList never places
  more pages (`Lru.NestedRun`, `Runs.NoBeladyRuns`). `env_create` with the same program and ActiveListSize makes
  nested lists, so this holds from the creation of the two environments on (`Runs.NoBeladyPrograms`).
- **Nothing is lost.** Whatever a group of environments does between creation and exit, interleaved in any
  way, afterwards exactly the same RAM and disk frames are free and all counts are as before
  (`Runs.ReturnAll`).
- **The working set is conserved.** At every moment from creation on the three lists partition the elements, in any run
  without a `freeMem` of that environment (`Runs.PartitionedInRuns`). `freeMem` loses one element for each page it finds
  in ActiveList; while a victim exists the environment goes on exactly as one whose SecondList is smaller by that many
  (`Runs.RunsAfterFree`, `WorkingSet.VictimIff`).
- **Directories and tables in frames.** From the directory of an environment the processor gets a user access through
  exactly if the page is in ActiveList, and ends at its frame (`Kernels.Kernel.ReachesActive`); from USER_TOP on every
  directory has the kernel's entries, and itself where VPT and UVPT are, after every operation
  (`Kernels.Kernel.KernelMapped`), so that the user finds the entries of its own pages at UVPT (`Memory.SelfMap`).
- **The scheduler** keeps every environment in one place and takes it where each operation should (`Sched.Destinations`),
  is idle only when nothing is ready (`Sched.BusyRun`), runs ready environments in the order they became ready
  (`Sched.ReadyOrder`), and every environment within a bounded number of decisions (`Sched.BoundedWaiting`,
  `Sched.RunAllWaits`).
- **The heap** keeps live blocks disjoint and tiled although single free entries go negative; malloc is best
  fit among the runs it looks at and free releases one block. In every run in which the page file does not run out, every page of every live block is in
  it, so that no access to the block is refused (`HeapPages.BlocksLegal`).

## Where the code is not exact

Some claims hold only under a condition. The model follows the code. Each condition is proved to be exact;
a lemma at a concrete input shows the failure where the condition does not name one by itself:

- `map_frame` keeps reference counts exact if and only if the entry it overwrites is 0 or PRESENT
  (`FrameTable.MapFrameExactIff`); otherwise the old frame is never freed (`FrameTable.MapFrameLeaks`).
- `calculate_required_frames` charges an empty range inside a missing table for that table
  (`FrameDemand.RequiredExactIff`, `FrameDemand.EmptyRangeCharged`).
- `malloc` leaves the heap sound if and only if it refuses or is asked for a proper size: not 0, whole pages when a
  run is split, and within the heap while nothing was freed yet, which it does not check (`Heap.MallocOkIff`).
  Splitting keeps the tiling if and only if the size is a whole number of pages (`Heap.SplitTiledIff`,
  `Heap.PartialPages`); `malloc(0)` returns a live block and gives its pages away (`Heap.NoBytes`).
- `malloc` takes the smallest run with room if and only if one of them ends at a live block and has fewer than 4000 pages
  (`Heap.BestFitIff`): it passes over free pages behind the last live block, and over larger runs
  (`Heap.RunsPassedOver`).
- The pages of a block that malloc returns are all in the page file if and only if there were enough free disk
  frames: the error code is not looked at (`HeapPages.MallocBackedIff`, `FromBoot.OutOfDiskFrames`).
- `freeMem` does not return the element of a page of ActiveList to PageWorkingSetList. The handler finds a victim if
  and only if not too many were lost (`WorkingSet.VictimIff`); with one place in either list, freeing one page is
  too many (`WorkingSet.NoVictimLeft`).
- `freeMem` of an address inside a page takes the pages of the range from the page file but finds none of them in the
  lists, which hold addresses of pages. It keeps the invariant if and only if none of them is resident
  (`Freeing.FreeInsideIff`); freeing inside any resident page breaks it (`Freeing.InsideLoses`).
- `sched_exit_env` loses an environment if and only if it is in the NEW queue (`Sched.ExitOnceIff`,
  `Sched.ExitLosesNew`).
- `sched_run_all` turns the order of arrival round: of two new environments the one created later runs first
  (`Sched.RunAllOrder`, `Sched.LastCreatedRuns`).
- `sched_kill_env` kills the running environment if and only if its id is the number of a status, for its assertion
  compares `env_id` where `env_status` is meant (`Sched.KillFreesIff`, `Sched.KillKeepsRunning`).
- `stab_binsearch` increments a pointer after an exact match, so by 4. Its outcome is as described if and only if it
  meets no stab in the gap that makes (`StabSearch.OutcomeIff`); it never does if no stab of the type is up to 4 above an
  address met exactly (`StabSearch.GapOutcome`). Stabs two or four bytes apart mislead it, stabs five apart do not (`StabSearch.CloseStabs`,
  `StabSearch.EdgeStabs`).
- The comment of `stab_binsearch` says that left > right means that no stab contains the address; it means that
  the region has no stab of the type at all (`StabSearch.EmptyIff`, `StabSearch.AllAbove`).
- An unsigned number is read back if and only if it is below 2^31; a negative one printed with `%d` is read
  back if and only if no blank is written between its sign and its digits, and one printed with `%p` if and only if none
  is written behind its prefix (`PrintParse.RoundTripIff`, `PrintParse.SignedRoundTripIff`,
  `PrintParse.PointerReadIff`, `PrintParse.UnsignedLost`, `PrintParse.SignedLost`).
- `initialize_paging` clears only the first 1024 bytes of the zero page (`kern/memory_manager.c:356-359`). A page of a
  segment beyond its file contents is zero if and only if the zero page is, loaded or not (`Programs.CreateProgram`,
  `FromBoot.ZeroPageLost`).
- `env_create` writes the page in which the file contents end from a pointer that it has moved to the next page before.
  If they start inside a page and end before the end of it, that page is written with the bytes one page further on: it
  is right if and only if these happen to be the same. All other pages within the file contents are as they should be,
  with any zero page (`Programs.FilePageIff`, `Programs.CreateProgram`, `FromBoot.StartsInside`).

## Model

| member | source | states |
|---|---|---|
| Mmu.AddressRoundTrip | inc/mmu.h:34-44 | PDX, PTX and PGOFF split a 32-bit address into fields from which PGADDR rebuilds it |
| Mmu.AddressFields | inc/mmu.h:34-44 | the fields of an address built by PGADDR are those it was built from |
| Mmu.UserPageIff | inc/memlayout.h:99-137 | the user's directory entries are those of the addresses below 0xEEC00000 |
| Mmu.EncodeDecode | inc/mmu.h:60-79 | every 32-bit word is one combination of entry fields |
| Mmu.DecodeEncode | inc/mmu.h:60-79 | every combination of entry fields comes back from its word |
| Mmu.EntryBits | inc/mmu.h:60-79 | as numbers: PRESENT, WRITEABLE, USER, USED and MODIFIED are the bits 0x1, 0x2, 0x4, 0x20 and 0x40 of an entry, and the frame is its high 20 bits |
| Mmu.UpdateBits | kern/memory_manager.c:1218-1219 | setting and clearing permissions acts on each bit of the word as or and and-not |
| FrameTable.AllocOk | kern/memory_manager.c:418-446 | allocate_frame keeps counts exact and every frame free, handed out or in use; the frame had no use |
| FrameTable.ReleaseOk | kern/memory_manager.c:453-470 | ending one use keeps counts exact, and the frame is free again exactly when it was the last use |
| FrameTable.EnterOk | kern/memory_manager.c:627-629 | counting and entering a frame at an empty entry keeps counts exact and tables unshared |
| FrameTable.EnterIff | kern/memory_manager.c:627-629 | ... and over an entry that is not 0 everything but the counts stays in order, which are then wrong |
| FrameTable.MapFrameOk | kern/memory_manager.c:565-633 | map_frame keeps the whole invariant when the entry is 0 or PRESENT |
| FrameTable.MapFrameExactIff | kern/memory_manager.c:619-629 | reference counts are exact after map_frame if and only if the entry it overwrote was 0 or PRESENT |
| FrameTable.MapFrameLeaks | kern/memory_manager.c:619-629 | a sound state of five frames where map_frame leaves a frame with a reference and no use |
| FrameTable.MapFramePoint | kern/memory_manager.c:565-633 | map_frame changes exactly one point of the map from pages to entries, whether or not it creates a table |
| FrameTable.UnmapPoint | kern/memory_manager.c:679-692 | unmap_frame changes exactly one point |
| FrameTable.MapThenUnmap | kern/memory_manager.c:565-692 | mapping a fresh frame and unmapping it restores frames, counts and entries |
| FrameTable.SingleUse | kern/memory_manager.c:535-549 | a directory, table or boot frame has exactly one use: no two directory entries share a table |
| FrameTable.DropSpaceOk | kern/user_environment.c:851-866 | freeing all tables and the directory of a space removes just its uses and entries |
| FrameDemand.MapRange | kern/memory_manager.c:894-934 | mapping every unmapped page of a range takes exactly the predicted number of frames, tables included |
| FrameDemand.RequiredExactIff | kern/memory_manager.c:894-934 | the predictor is exact if and only if the range is nonempty, or starts a table, or its table exists |
| FrameDemand.EmptyRangeCharged | kern/memory_manager.c:894-934 | a sound state where no page is asked for and one frame is charged |
| Memory.PhysicalMemory.constructor | kern/memory_manager.c:332-390 | after initialize_paging the free frames, highest first, are exactly those that are none of the first three and have no byte in [0xA0000, 0x100000) or in the kernel up to ptr_free_mem; they have no references, all others one, and all is in order |
| Memory.TableBits | kern/memory_manager.c:535-549 | bit by bit: a page table is entered PRESENT, WRITEABLE and USER with its frame and no other bit, a table of the page file PRESENT only, and no table is the entry 0 |
| Memory.ReachesIff | kern/memory_manager.c:535-629 | both entries on the way of a user access are PRESENT, WRITEABLE and USER if and only if the page's entry is, and it ends at that entry's frame |
| Memory.KernelEntries | kern/user_environment.c:284-292 | address by address, from 0xEEC00000 on a page directory has the entries of the kernel's, but itself, PRESENT and WRITEABLE, at 0xEFC00000 and, PRESENT and USER, at 0xEF400000 |
| Memory.SelfMap | kern/user_environment.c:903-906 | the word at 0xEF400000 + 4 * n, read through the directory, is the entry of page n |
| Memory.PhysicalMemory.NewDirectory | kern/user_environment.c:284-292 | the frame holds the entries it was given and, for a page directory, the two that point at itself; no other frame changes and all is in order |
| Memory.PhysicalMemory.Walk | kern/trap.c:408-431 | the processor's walk ends at a frame exactly if both entries let the user through |
| Memory.PhysicalMemory.AllocateFrame | kern/memory_manager.c:418-446 | the first free frame is handed out, unused |
| Memory.PhysicalMemory.DecrementReferences | kern/memory_manager.c:467-470 | the count drops by one and the frame is freed at 0 |
| Memory.PhysicalMemory.GetPageTable | kern/memory_manager.c:481-527 | finds the table exactly if there is one; it is never frame 0 |
| Memory.PhysicalMemory.CreateTable | kern/memory_manager.c:535-549 | a table of zero words behind the directory entry, which is PRESENT and, in memory, WRITEABLE and USER, with its frame; no other entry and no other frame is touched |
| Memory.PhysicalMemory.MapFrame | kern/memory_manager.c:565-633 | the words in the frames become those of the map with one entry changed, in all cases; the invariant holds exactly if the entry was 0 or PRESENT |
| Memory.PhysicalMemory.GetFrameInfo | kern/memory_manager.c:645-662 | returns the mapped frame, 0 exactly if the entry is 0 |
| Memory.PhysicalMemory.UnmapFrame | kern/memory_manager.c:679-692 | the entry becomes 0 and the use ends |
| Memory.PhysicalMemory.LoadtimeMapFrame | kern/memory_manager.c:710-744 | the entry is overwritten without a look; the invariant holds, and it is map_frame, exactly if it was empty |
| Memory.PhysicalMemory.SetPermissions | kern/memory_manager.c:1200-1242 | one entry gets bits set and cleared, whatever it was; the invariant holds exactly if there was an entry or no bit remains |
| Memory.PhysicalMemory.CalculateRequiredFrames | kern/memory_manager.c:894-934 | the two address loops count the missing tables and the unmapped pages of the range |
| Memory.PhysicalMemory.FreePageTables | kern/user_environment.c:851-866 | steps 3 and 4 of env_free |
| Memory.PhysicalMemory.DropEmptyTable | kern/memory_manager.c:846-865 | a table is freed and its directory entry cleared exactly if all its entries are 0 |
| Lru.FaultIsMoveToFront | kern/trap.c:522-611 | on the concatenated lists a fault is move-to-front with truncation, and the prefix split and capacities hold |
| Lru.NoBeladyFrom | kern/trap.c:506-607 | for every reference string, lists that start one within the other stay so: the smaller SecondList keeps a prefix of the larger one's pages, ActiveList is the same, and it has placed at least as many pages |
| Lru.NoBelady | kern/trap.c:506-607 | in particular from empty lists: placements never grow with SecondListSize |
| Lru.ResidentByLastFault | kern/trap.c:506-607 | from every start: the resident pages are in order of last fault, newest first, those that have not faulted since following in the order they had, and all other pages are older |
| Lru.ResidentFromEmpty | kern/trap.c:506-607 | in particular from empty lists, where the order is that of last faults and nothing else |
| Lru.VictimIsOldest | kern/trap.c:559-607 | from every start the page a fault evicts is the one of all resident pages whose last fault is the oldest |
| Lru.NestedRun | kern/trap.c:506-607 | for every reference string: the same ActiveList, the smaller SecondList a subsequence of the larger one and full or equal to it, and no more placements with the larger |
| Lru.PlacedOnce | kern/trap.c:478-505 | over every reference string as many pages are placed as references are made to pages that are not resident |
| Lru.LoadedAt | kern/user_environment.c:407-423 | the first pages loaded, as many as fit, are in ActiveList, the others in SecondList, each newest first |
| Lru.ForgetAllDeletes | kern/memory_manager.c:788-831 | freeMem deletes its pages from the one list and keeps order and split |
| WorkingSet.PlaceOk | kern/trap.c:476-519 | placing takes the last free element and conserves all elements |
| WorkingSet.PromoteOk | kern/trap.c:544-562 | promotion exchanges the element with the last of ActiveList and conserves all elements |
| WorkingSet.EvictOk | kern/trap.c:563-607 | the victim is the last of the one list, and its element is free |
| WorkingSet.FaultOk | kern/trap.c:522-611 | the handler conserves elements and does to pages what the page lists say for the sizes in effect, if a victim exists when it needs one |
| WorkingSet.VictimIff | kern/trap.c:559-589 | with no free element, the LIST_LAST that the handler takes exists if and only if more elements are left than ActiveListSize, or than 0 when there is no SecondList |
| WorkingSet.DropOk | kern/memory_manager.c:794-828 | freeMem does to the pages what Lru.Forget says, and costs an element exactly if the page is in ActiveList |
| WorkingSet.NoVictimLeft | kern/memory_manager.c:796-810 | a sound environment that has no victim after one page was freed and one placed |
| WorkingSet.NextElement | kern/user_environment.c:402-423 | while loading, the next free element is the one page_last_WS_index names |
| WorkingSet.LoadDone | kern/user_environment.c:700-725 | after the stack page is listed the discipline of the handler holds |
| Machine.NewDfnBase | kern/file_manager.c:215-221 | giving a page a disk frame keeps disk frames unshared and none lost |
| Machine.OtherEnvs | kern/trap.c:380-440 | what one environment's step leaves alone keeps the invariant of every other |
| Paging.EvictInv | kern/trap.c:563-607 | eviction keeps the invariant of memory, disk and all environments, and frees one frame |
| Paging.PromoteInv | kern/trap.c:544-562 | promotion keeps the invariant and flips PRESENT of just the two pages |
| Paging.PlaceInv | kern/trap.c:476-519 | placement keeps the invariant and loses nothing of the page file |
| Paging.PageFaultInv | kern/trap.c:522-611 | the handler keeps the invariant: a page is PRESENT iff in ActiveList, its entry nonzero iff in either list |
| Paging.EvictCounts | kern/trap.c:566-581 | nPageOut grows by one for a MODIFIED victim and not otherwise |
| Paging.DemotedBits | kern/trap.c:503-519 | the entry of the page that moves to SecondList loses PRESENT, USER and WRITEABLE, that of the new page gets them, and nothing else changes in any entry |
| Paging.PromotedBits | kern/trap.c:543-557 | ... likewise when a page of SecondList is promoted |
| FlatMemory.EvictKept | kern/trap.c:569-582 | the victim is written back exactly when MODIFIED; no other page's contents move |
| FlatMemory.PlaceKept | kern/trap.c:483-505 | placement loads the page's disk contents, clean, and moves no other contents |
| FlatMemory.PresentIsActive | kern/trap.c:506-562 | PRESENT iff in ActiveList, nonzero iff resident |
| FlatMemory.TouchInv | kern/trap.c:408-431 | after at most a table fault and a page fault the page is PRESENT, writeable and the user's |
| FlatMemory.StoreInv | kern/trap.c:522-611 | a store keeps the invariant and is a store into the flat memory |
| FlatMemory.LoadFlat | kern/trap.c:522-611 | a load returns the flat memory's word |
| FlatMemory.GrowInv | kern/file_manager.c:205-227 | adding an empty page to the page file keeps the invariant and all contents |
| FlatMemory.AddInv | kern/file_manager.c:205-227 | ... and so does trying to when no disk frame is free, which changes no entry |
| Freeing.FreePageInv | kern/memory_manager.c:788-831 | one round of freeMem keeps the invariant, takes the page from memory, page file and lists, and keeps the contents and disk frames of all other pages |
| Freeing.DropEmptyInv | kern/memory_manager.c:839-868 | freeing an empty table keeps the invariant and all entries |
| Freeing.FreeMemInv | kern/memory_manager.c:779-871 | freeMem keeps the invariant; the pages of the range are gone, all others keep contents and disk frames, and no table it looked at is empty |
| Freeing.FreeInsideIff | kern/memory_manager.c:779-871 | for an address inside a page freeMem empties the page file of the range, leaves the lists and memory, and keeps the invariant if and only if no page of the range is resident |
| Freeing.InsideLoses | kern/memory_manager.c:779-871 | freeing inside any resident page breaks the invariant |
| Freeing.SmallerAfterFree | kern/memory_manager.c:794-813 | afterwards the sizes in effect are those of the elements left: their number less those lost, ActiveListSize of them at most in ActiveList |
| LifeCycle.DestroyInv | kern/user_environment.c:828-873 | env_free keeps the invariant, leaves nothing of the environment and touches no other |
| LifeCycle.DiskFreed | kern/file_manager.c:375-429 | exactly the environment's disk frames return to the free list, each once |
| LifeCycle.StepsFit | kern/user_environment.c:385-423 | loading never takes more elements than the working set has, the stack page's included |
| ProgramLoading.LoadAllOk | kern/user_environment.c:568-645 | after any number of loading steps memory holds what was loaded, the page file what was written, and nobody else is affected |
| ProgramLoading.CleanAllLoading | kern/user_environment.c:647-663 | every loaded page is clean before the program starts |
| ProgramLoading.HiddenBits | kern/user_environment.c:733-742 | the pages env_create puts into SecondList lose PRESENT and nothing else |
| ProgramLoading.CreateInv | kern/user_environment.c:476-758 | env_create establishes the invariant for any pages loaded and written; the new memory is all words in which memory and page file agree and a zeroed stack page, whatever the zero page holds; everything else is clean |
| ProgramLoading.CreateNested | kern/user_environment.c:385-423 | for one program and two SecondListSizes env_create leaves nested lists |
| Programs.MemoryRight | kern/user_environment.c:440-458 | a page of a segment in memory has the segment's bytes, zero beyond the file contents, in every word from the virtual address on, whatever the frame held |
| Programs.KeptBefore | kern/user_environment.c:440-458 | and every word before the virtual address is as the frame held it |
| Programs.FilePageIff | kern/user_environment.c:595-656 | what is finally written for a page of a segment is right if and only if the page is beyond the file contents and the zero page is zero, or within them and not one in which they both start after its first byte and end, unless the bytes repeat |
| Programs.ProgramCovered | kern/user_environment.c:573-656 | with any zero page and whatever the frames hold, every page loaded of a program in ascending segments is written to the page file, and none is loaded twice |
| Programs.ProgramFile | kern/user_environment.c:595-656 | over all segments, the last of the writes to a page is the one of FilePageIff: no segment overwrites a page of another |
| Programs.CreateProgram | kern/user_environment.c:476-758 | after env_create the stack page is zero, and a page of a segment, loaded or not, has the segment's bytes from the virtual address on, zero beyond the file contents, if and only if it is right in the sense of FilePageIff; all other environments keep theirs |
| Programs.AnyJunk | kern/user_environment.c:476-758 | whether a program can be created does not depend on what the frames of its first pages hold |
| Programs.SameProgram | kern/user_environment.c:377-436 | a program loads the same pages whatever the zero page and the frames hold |
| LoadRoom.EnoughToCreate | kern/user_environment.c:476-758 | two free frames for each page loaded or written, five more, and a disk frame for each page written and the stack are enough |
| FromBoot.CreatesAfterBoot | kern/user_environment.c:476-758 | so right after boot every program of that size can be created |
| FromBoot.ZeroPageLost | kern/user_environment.c:646-656 | a segment of one zero byte, and a zero page that is not zero: the byte is not zero |
| FromBoot.StartsInside | kern/user_environment.c:629-642 | a segment of one byte at offset 4 of its page: the byte is not there |
| Runs.RunInv | kern/trap.c:380-611 | over every run of every environment, freeMem included, the invariant holds and memory agrees with the flat memory |
| Runs.StackRange | inc/memlayout.h:137-160 | the stack is [0xA00EC000, 0xEEBFE000): its lower bound is what USTACKBOTTOM comes to in 32 bits; env_create makes the last page of it |
| Runs.LoadsAreFlat | kern/trap.c:380-611 | a load after any run returns the last value stored there |
| Runs.ReturnAll | kern/user_environment.c:828-873 | environments that come and go leave exactly the same frames and disk frames free |
| Runs.RunLists | kern/trap.c:522-611 | over any interleaving an environment's lists depend on its own references only, for the sizes in effect |
| Runs.PartitionedInRuns | kern/trap.c:522-611 | over every run from env_create on without a freeMem of the environment, its three lists partition all its elements |
| Runs.RunsAfterFree | kern/memory_manager.c:794-828 | over every run after a freeMem the lists are those of an environment with smaller lists, and with no free element a victim exists if and only if elements are left beyond ActiveListSize, or any at all without a SecondList |
| Runs.ResidentInRuns | kern/trap.c:522-611 | over any interleaving the resident pages of an environment are in order of last fault, and all others are older |
| Runs.VictimInRuns | kern/trap.c:559-607 | whenever it has no free element there is a victim, and it is the resident page whose last fault is the oldest |
| Runs.NoBeladyRuns | kern/trap.c:522-611 | two environments, of one running machine or two, that make the same references from nested lists: the larger SecondList keeps every page the smaller keeps and has placed no more, whatever others do |
| Runs.NoBeladyPrograms | kern/user_environment.c:476-758 | the same from env_create on, for the same pages created with equal ActiveListSize and two SecondListSizes, as one program is |
| Runs.CleanIsCopy | kern/trap.c:569-582 | at every moment a resident page that is not MODIFIED equals its disk copy in every determined word |
| PageRanges.AllocThenFree | kern/memory_manager.c:756-831 | allocateMem then the first loop of freeMem on a fresh range restores the page file, even when it runs out of space |
| PageRanges.AllocRangeInv | kern/memory_manager.c:756-773 | allocateMem keeps the invariant and all contents, for any range; the pages without a disk frame get those at the head of the free list, as far as these go |
| HeapPages.MallocBackedIff | lib/uheap.c:29-122 | after a malloc that found room the pages of all live blocks are in the page file if and only if there were enough free disk frames, and then every access to the block is legal |
| FromBoot.OutOfDiskFrames | lib/uheap.c:29-122 | after boot with one disk frame, which the stack page of the only environment takes, malloc of one page returns a block that is not in the page file |
| HeapPages.FreeBacked | lib/uheap.c:142-175 | free, with freeMem of its block, keeps the pages of all other live blocks |
| HeapPages.BlocksLegal | lib/uheap.c:29-175 | in every run of malloc, free and anything else on the machine, every access to a live block is legal |
| Kernels.Kernel.constructor | kern/file_manager.c:87-101 | at boot the invariant holds; the free frames are those of initialize_paging, the disk frames from 1 up are free, highest first, and hold what the file does |
| Kernels.Kernel.AllocateDiskFrame | kern/file_manager.c:122-133 | the first free disk frame, or E_NO_PAGE_FILE_SPACE exactly if there is none |
| Kernels.Kernel.FreeDiskFrame | kern/file_manager.c:138-143 | the disk frame goes to the head of the list; 0 is ignored |
| Kernels.Kernel.DiskFrameOf | kern/file_manager.c:332-345 | the page's disk frame, 0 exactly if it has none |
| Kernels.Kernel.PfAddEmptyEnvPage | kern/file_manager.c:205-227 | the page gets a disk frame unless it has one, with directory and table on demand; fails exactly if none is free |
| Kernels.Kernel.PfAddEnvPage | kern/file_manager.c:229-258 | ... and its contents are written |
| Kernels.Kernel.PfUpdateEnvPage | kern/file_manager.c:260-303 | the frame's contents go to the page's disk frame; nPageOut grows |
| Kernels.Kernel.PfReadEnvPage | kern/file_manager.c:323-354 | the page's contents come from its disk frame and MODIFIED is cleared; nPageIn grows in any case |
| Kernels.Kernel.PfRemoveEnvPage | kern/file_manager.c:356-373 | the page loses its disk frame |
| Kernels.Kernel.PfFreeEnv | kern/file_manager.c:375-453 | all disk frames, disk tables and the disk directory are freed |
| Kernels.Kernel.PfCalculateAllocatedPages | kern/file_manager.c:493-530 | counts exactly the pages in the page file |
| Kernels.Kernel.Placement | kern/trap.c:476-519 | the words, lists and frames become those of the machine's placement |
| Kernels.Kernel.ReleaseVictim | kern/trap.c:563-607 | ... of its eviction |
| Kernels.Kernel.PageFaultHandler | kern/trap.c:522-611 | ... of its page fault; the search of SecondList takes the first match |
| Kernels.Kernel.TableFaultHandler | kern/trap.c:442-454 | an empty table is created |
| Kernels.Kernel.FaultHandler | kern/trap.c:408-431 | a table fault if the directory entry is not PRESENT, else a page fault |
| Kernels.Kernel.UserLoad | kern/trap.c:408-431 | a user load ends after at most two faults and returns the machine's word |
| Kernels.Kernel.UserStore | kern/trap.c:408-431 | a user store ends after at most two faults, changes one word and keeps the invariant |
| Kernels.Kernel.Translate | kern/trap.c:408-431 | after at most two faults both entries on the way are PRESENT, WRITEABLE and USER and end at the page's frame |
| Kernels.Kernel.ReachesActive | kern/trap.c:503-557 | at every moment a user access gets through exactly if the page is in ActiveList, and ends at its frame |
| Kernels.Kernel.KernelMapped | kern/user_environment.c:284-292 | after every operation every directory has the kernel's entries from USER_TOP on and itself at VPT and UVPT |
| Kernels.Kernel.EnvFree | kern/user_environment.c:828-873 | is the machine's exit |
| Kernels.Kernel.CopyPage | kern/user_environment.c:440-458 | the copying loop and the zeroing loop leave the page's bytes: what the frame held before the virtual address, the segment's bytes, and zero beyond the file contents |
| Kernels.Kernel.FirstTemporaryPage | kern/user_environment.c:595-612 | the bytes at ptr_temp_page for the first page, and where src_ptr then stands |
| Kernels.Kernel.LastTemporaryPage | kern/user_environment.c:629-640 | the bytes at ptr_temp_page for the page in which the file contents end, from where src_ptr stands |
| Kernels.Kernel.WriteSegment | kern/user_environment.c:595-656 | the first page, the whole pages, the page the file contents end in and the rest are written in that order |
| Kernels.Kernel.LoadSegment | kern/user_environment.c:377-458 | as many pages as fit are loaded, 6 of the segment at 0x200000, and all are written |
| Kernels.Kernel.EnvCreate | kern/user_environment.c:476-758 | is the machine's creation of the program's segments for what their first frames held, keeps the invariant, and leaves the kernel's entries in the new directory |
| Kernels.Kernel.AllocateMem | kern/memory_manager.c:756-773 | adds every page of the range to the page file |
| Kernels.Kernel.FreeMemPage | kern/memory_manager.c:790-829 | the nested searches of the two lists, unlinking, promotion and unmapping are the machine's step |
| Kernels.Kernel.FreeMem | kern/memory_manager.c:779-871 | both loops are the machine's freeMem for the address of a page; for one inside a page they are FreeInside, and the invariant is kept exactly if no page of the range is resident |
| Lists.List.InsertHead | inc/queue.h:238-247 | the linked elements are the new one followed by the old ones, size follows |
| Lists.List.InsertTail | inc/queue.h:252-261 | ... the old ones followed by the new one |
| Lists.List.InsertAfter | inc/queue.h:202-213 | ... with the new one right after the given one |
| Lists.List.InsertBefore | inc/queue.h:219-233 | ... with the new one right before the given one |
| Lists.List.Remove | inc/queue.h:266-278 | ... without the removed one, whose links are cleared |
| Lists.ForEachMove | inc/queue.h:183-186 | LIST_FOREACH visits every element of the starting list once, in order, though the body moves elements to another list |
| Lists.ForgetElement | kern/memory_manager.c:790-829 | freeMem's loops over the linked lists, in which the body unlinks the element under the loop, inserts the head of SecondList at the tail of the list walked along, and searches SecondList for every element: the three lists become those of Lru.Forget, no element doubled |
| Lists.NothingLost | kern/user_environment.c:838-849 | no element is lost or doubled between the two lists |
| Heap.LiveDisjoint | lib/uheap.c:85-121 | live blocks are pairwise disjoint and below last_addres |
| Heap.RunsNotNegative | lib/uheap.c:52-98 | every maximal free run has a sum that is not negative |
| Heap.SplitOk | lib/uheap.c:85-109 | splitting a run keeps tiling and run sums; the block overlaps no live block |
| Heap.SplitTiledIff | lib/uheap.c:96-98 | splitting keeps the tiling if and only if the size is a whole number of pages |
| Heap.MallocOkIff | lib/uheap.c:29-122 | from a sound heap malloc leaves a sound heap if and only if it refuses or the size is proper |
| Heap.MallocAllocates | lib/uheap.c:29-122 | a proper malloc adds one live block in the heap, apart from all others, at the start of the smallest run that fits, or else at last_addres |
| Heap.HeapLimits | lib/uheap.c:29-49 | blocks lie in [0x80000000, 0xA0000000), the first at its start; before anything is freed just the sizes above 512 megabytes are refused |
| Heap.BestFitIff | lib/uheap.c:52-84 | the block is at the start of a smallest run with room if and only if some smallest run with room ends at a live block and has fewer than 4000 pages |
| Heap.RunsPassedOver | lib/uheap.c:52-84 | a sound heap with a free page behind its block, and one with 4000 free pages in front: a page is taken from last_addres |
| Heap.PartialPages | lib/uheap.c:96-98 | a sound heap and a size of 4097 bytes that leave the heap untiled |
| Heap.NoBytes | lib/uheap.c:85-109 | a sound heap where malloc(0) returns the live block in front and leaves it without pages |
| Heap.FreedOk | lib/uheap.c:160-173 | freeing keeps everything and removes one live block |
| Heap.UserHeap.FindRun | lib/uheap.c:52-84 | the scan finds the smallest run that fits and ends at a live block, the first on ties |
| Heap.UserHeap.Malloc | lib/uheap.c:29-122 | for every size and every state of the arrays it does what Mallocs says: best fit, last_addres only when no run fits or nothing was freed, NULL exactly when refused; the heap stays sound exactly for proper sizes, and then the block is new |
| Heap.UserHeap.Free | lib/uheap.c:142-175 | releases the first live entry at that address, or nothing; in a sound heap that is exactly the live block there |
| Sched.ApplyOnce | kern/sched.c:319-595 | every environment is in exactly one of NEW, READY, EXIT, running and freed |
| Sched.RunOnce | kern/sched.c:92-595 | ... over every run |
| Sched.Destinations | kern/sched.c:101-595 | every operation takes every environment from where it was to where it should be: sched_run_all and sched_run_env from NEW to ready or running, sched_exit_env and sched_exit_all_ready_envs to EXIT, except that sched_exit_env takes one from NEW to nowhere, sched_kill_env to freed unless it panics; everybody else stays |
| Sched.BusyRun | kern/sched.c:101-161 | over every run the scheduler is stopped exactly when nothing runs, and then nothing is ready |
| Sched.ExitOnceIff | kern/sched.c:439-497 | sched_exit_env keeps that if and only if the environment is not in the NEW queue |
| Sched.ExitLosesNew | kern/sched.c:439-497 | environment 1 runs, 5 is created and exits: it is nowhere |
| Sched.KillFreesIff | kern/sched.c:517-595 | sched_kill_env frees an environment if and only if it is not running or has the id the assertion wants |
| Sched.KillKeepsRunning | kern/sched.c:578-583 | killing the running environment 5 panics and changes nothing |
| Sched.BoundedWaiting | kern/sched.c:101-124 | with k environments nearer the tail, one runs by the (k+1)-th decision, whatever happens to the others |
| Sched.ReadyOrder | kern/sched.c:101-124 | of two ready environments the one nearer the tail runs while the other waits, whatever happens to others |
| Sched.RunAllWaits | kern/sched.c:319-330 | an environment that sched_run_all makes ready runs at the latest after those that were ready before and those created after it |
| Sched.RunAllOrder | kern/sched.c:319-330 | of two new environments the one created later runs first |
| Sched.LastCreatedRuns | kern/sched.c:319-330 | environments 1 and 2 are created in this order, and 2 runs |
| Sched.Scheduler.FosScheduler | kern/sched.c:92-161 | the running environment is enqueued and the tail of the queue runs |
| Sched.Scheduler.SchedNewEnv | kern/sched.c:393-400 | a new environment goes to the head of the NEW queue |
| Sched.Scheduler.SchedRunEnv | kern/sched.c:413-437 | a new environment becomes ready, and a stopped scheduler starts; other ids change nothing |
| Sched.Scheduler.SchedExitAllReadyEnvs | kern/sched.c:499-514 | all ready environments go to EXIT, in the order the loop visits them |
| Sched.Scheduler.SchedRunAll | kern/sched.c:319-330 | the loop makes all new environments ready, as Destinations and RunAllWaits say |
| Sched.Scheduler.SchedExitEnv | kern/sched.c:439-497 | as the code does, the lost environment included; curenv is read on every path and must not be null |
| Sched.Scheduler.SchedKillEnv | kern/sched.c:517-595 | removes the environment from the queue it is in; the running one is killed or the kernel panics, as the assertion says |
| QuickSorting.BandSorted | user/quicksort.c:122-125 | sorting both sides of the band sorts the range: the band needs no recursion |
| QuickSorting.Partition | user/quicksort.c:109-122 | the loop ends, with nothing larger before the band, nothing smaller after it, and the band equal to the pivot |
| QuickSorting.QSort | user/quicksort.c:105-126 | the range becomes a sorted permutation, nothing outside changes |
| QuickSorting.QuickSort | user/quicksort.c:99-102 | the array becomes a sorted permutation |
| QuickSorting.CheckSorted | user/quicksort.c:128-141 | true exactly if the array is sorted |
| StabSearch.StabBinsearch | kern/kdebug.c:60-103 | ends for all inputs, sorted or not, with what the recursive search computes |
| StabSearch.OutcomeIff | kern/kdebug.c:23-103 | on sorted stabs the result is the last stab of the type at or below the address and the index before the next of the type, if and only if the search meets no stab between the address and what addr++ made of it |
| StabSearch.GapOutcome | kern/kdebug.c:84-90 | so it is if no stab of the type is up to 4 above an address that is met exactly |
| StabSearch.CloseStabs | kern/kdebug.c:84-90 | stabs at 100 and 102, searched at 100: the result is the second |
| StabSearch.EdgeStabs | kern/kdebug.c:84-90 | stabs at 100 and 104, searched at 100: the second; at 100 and 105: the first |
| StabSearch.EmptyIff | kern/kdebug.c:43-47 | for all inputs left > right if and only if the region has no stab of the type |
| StabSearch.AllAbove | kern/kdebug.c:43-47 | one stab at 100, searched at 50: left and right are both -1 |
| PrintParse.PrintedIs | lib/printfmt.c:36-51 | the output is the padded digits, max(width, digits) characters long |
| PrintParse.DigitsSpell | lib/printfmt.c:36-51 | the digits written stand for the number in the base, are 0 to 9 and a to f in lower case, and do not begin with 0 unless the number is 0 |
| PrintParse.DigitIff | lib/string.c:206-216 | a character is read as digit d exactly if it is d among 0 to 9, a to z, or A to Z |
| PrintParse.ReadText | lib/string.c:180-225 | behind blanks and tabs, a sign or none, and a prefix for the base or none, strtol reads the number that the digits stand for, negative behind a minus, as a long; endptr is behind the last character that is a digit of the base |
| PrintParse.PrefixRead | lib/string.c:196-201 | every number is read back from its hexadecimal digits behind 0x with base 0 and 16, its octal digits behind 0 with base 0, and its decimal digits with base 0, signed or not |
| PrintParse.PointerReadIff | lib/printfmt.c:215-222 | what %p prints is read back, all of it, if and only if no blank is written behind the prefix |
| PrintParse.PrintThenRead | lib/printfmt.c:36-51 | strtol reads the printed number, wrapped to 32 bits, and consumes all of it |
| PrintParse.RoundTripIff | lib/string.c:180-225 | an unsigned number is read back if and only if it is below 2^31 |
| PrintParse.SignedRoundTripIff | lib/printfmt.c:192-199 | an int printed with %d is read back if and only if no blank follows its sign |
| PrintParse.UnsignedLost | lib/string.c:180-225 | 2^31 is read back as -2^31 |
| PrintParse.SignedLost | lib/printfmt.c:192-199 | -5 printed with %3d is read back as 0 |
| PrintParse.Output.Printnum | lib/printfmt.c:36-51 | writes exactly that output |
| PrintParse.Output.PrintInt | lib/printfmt.c:192-199 | the %d path writes the sign and then the padded digits |
| PrintParse.Output.PrintPointer | lib/printfmt.c:215-222 | the %p path writes 0x and then the padded hexadecimal digits |
| PrintParse.ReadNumber | lib/string.c:180-225 | the loops of strtol compute what ReadText speaks of, for every text and base |

## Left out

- Hardware and I/O: disk sectors, the TLB, CR registers, interrupts, the console and the boot loader. Disk and frames are arrays of page contents, and the processor's part of an access is `UserLoad` and `UserStore`.
- Panics and null pointers are preconditions of the operations they end: no free frame, no page file space while loading, accesses to pages that are neither in the page file nor on the stack, a fault that needs a victim when freeMem has left none, and a null curenv.
- The kernel half of page directories, kernel addresses, and faults taken in kernel mode.
- The USED bit, which the processor sets at every access: nothing reads it with LRU lists.
- Page buffering, the kernel heap, shared objects, semaphores, MLFQ, `moveMem` and the other functions that only panic.
- Page tables that live in the page file (`disk_env_tabledir`): with tables never evicted, nothing creates one.
- The working-set code for other replacement algorithms, the table working set and the fault counters.
- `calculate_available_frames` and `pf_calculate_free_frames`: they count the free lists.
- Kernels.Kernel.FreeMem: wants a range that ends below the user limit, beyond which are the tables all environments share with the kernel.
- Memory.PhysicalMemory.CalculateRequiredFrames: wants a range below the user limit, for the same reason.
- Kernels.Kernel.PfReadEnvPage: wants the page mapped, as its caller has just done; for one that is not, the kernel itself would fault.
- Kernels.Kernel.EnvCreate: the ELF header is not read: a program is its segments, with size_in_file at most size_in_memory. No page is loaded twice, so that segments share no page in memory. Each page gets its contents as it is mapped rather than after the last one.
- Kernels.Kernel.LoadSegment: the same; nothing is assumed of the order of segments or of where in a page they start.
- Programs.CreateProgram: asks for segments in ascending order that share no page and stay below the stack page; pages that two segments share are not modelled.
- Programs.ProgramFile: the same.
- Programs.ProgramCovered: the same.
- Kernels.Kernel.AllocateDiskFrame: the free lists and the lists of an environment are sequences here; the pointers behind them are modelled in `Lists.dfy` only.
- Environment ids, `allocate_environment` and the environment table: an environment is a number, reused once it is freed.
- Heap.UserHeap.Malloc: asks its callers for a place in the arrays, whose length is fixed; addresses are unbounded integers, which in a sound heap stay below 2^32.
- `sched_kill_all` and the printing functions of the scheduler.
- The parsing of format strings in `vprintfmt`, `ltostr`, `LIST_CONCAT`, the command prompt, system call dispatch and user programs.
