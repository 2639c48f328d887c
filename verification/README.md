# ReddyOS memory, files and time: a verified model

ReddyOS is an x86-64 hobby kernel. This project models its memory subsystem, and some smaller parts
that have a clear specification, in Dafny, and proves what they promise.

Physical memory is a sequence of 512-word frames. The frame allocator threads its free list through
word 0 of the free frames; page tables live in frames it hands out. All arguments about mapping are
therefore arguments about who owns which frame.

| file | models |
|---|---|
| `Sequences.dfy` | sequences without repetition, stacks |
| `PageFormat.dfy`, `PageBits.dfy` | 64-bit words of a frame as fields; the C bit operations give these fields |
| `MemoryMap.dfy`, `Pmm.dfy`, `FrameRuns.dfy` | the frame allocator: the resumable walk over the boot loader's memory map, the free list, whole histories |
| `PageTables.dfy`, `Teardown.dfy`, `Vmm.dfy`, `Runs.dfy` | 4-level page tables: the walk as a flat map, mapping, unmapping, creating and destroying address spaces, whole histories |
| `Regions.dfy`, `VmaTree.dfy`, `AreaRuns.dfy` | the areas of a process: values, the search tree whose keys change in place, whole histories |
| `Ownership.dfy`, `UserPages.dfy`, `Faults.dfy`, `Process.dfy` | stack growth, page faults, demand paging, mmap and munmap with the pages behind them, whole runs of faults; whose frames are whose |
| `HeapBlocks.dfy`, `Heap.dfy`, `HeapRuns.dfy` | the kernel heap |
| `System.dfy` | all processes and the heap together, over one set of frames |
| `Descriptors.dfy` | open files and descriptor tables |
| `Tar.dfy` | the tar archive as root file system: parsing, lookup, reading |
| `Calendar.dfy`, `PmTimer.dfy` | date arithmetic, the wrapping timer and busy sleeping |

The page-table format is that of the Intel SDM, Vol. 3A, section 4.5, the access rights those of
section 4.6. Descriptor numbers follow POSIX.1-2017, XSH section 2.14; seconds since the epoch XBD
section 4.16; archives the ustar interchange format of the pax utility.

Conventions. A kernel panic is a result (`None`, `false`, `Panic`), never a precondition. The fields of
the kernel's objects are fields of classes; memory is one field of type `seq<Page>`. Ghost fields say
who owns what: `tabs` maps each table's place in the tree to its frame, `free` and `blocks` list what
is linked through memory. Where the code wraps at 64 bits the model wraps (`Wrap`, `Round16`,
`PagesFor`, `AlignUp64`).

Histories. `Runs`, `FrameRuns`, `AreaRuns`, `HeapRuns`, `Descriptors` and `Faults` prove things of every
sequence of steps, assuming only that the first state is in order. In the first five a method `Serve`
makes the calls on the object itself and promises that what happened was such steps; for faults the
process's own methods do, and `Touch` returns the run it made.

The heap's range. The heap takes pages from HEAP_START (headers/memory/heap.h:5) on, and with at most
16 TiB of usable memory its cursor stays within 32 TiB of it. `HEAP_END` bounds what the model calls the
heap's range well below the kernel's image, which linker.lds:24 puts at 0xffffffff80000000. The kernel's
stacks (headers/memory/heap.h:3-4) and the direct map lie below HEAP_START. So the boot loader's tables can
map all of these and leave the range empty, and `System.MapPage` shows that the kernel may go on mapping
beside it.

The stack and the areas. An area may lie across the pages the stack may grow to, for do_sys_mmap does not
look where the stack is. `Process.Valid` therefore asks that lists and tables agree beside the stack's range
[stackBottomMax, stackTop) only, and `Agreed` that they agree everywhere.

Where the code does less than one might expect, the model follows the code, and the lemmas give the
exact condition and an input that fails:

- `MapKeepsGood`: a new area keeps the areas disjoint exactly when it does not run past 2^64
  (`WrappingMmapBreaks`).
- `UnmapKeepsGood`: unmapping keeps the areas page aligned exactly when the caller's address is; the
  code rounds the length but not the address (`UnalignedMunmapBreaks`).
- `UnmapIsTrim`: unmapping removes the range exactly when its end does not wrap past 2^64; otherwise the
  address stays covered (`WrappingMunmapMoves`).
- `MapAgreesExactly`: lists and tables agree right after mmap exactly when the new area ends at or below the
  bottom of the stack as it is; the code does not look at the stack (`LargeMmapCoversStack`).
- `MapStaysRightExactly`: they go on agreeing through all later faults exactly when it ends at or below the
  limit the stack may grow to: a fault below the stack's bottom maps a page that no list of an area shows.
- `TrimAgreesExactly`, `CleanIsKept`: unmapping part of an area leaves its list of pages right exactly when
  no page of it is unmapped, and vma_cleanup comes back exactly then (`LostPage`).
- `RequestFits`: kmalloc's arithmetic is sound exactly up to 2^64 - 4128 bytes (`HugeRequestsWrap`).
- `KernelHalfForever`: a process sees the kernel's later mappings exactly under the top-level slots the
  kernel had filled when the process was created.
- `OpensItself`: a file of the archive opens under its own name exactly when the name is not empty
  after "./" and does not end in a slash (`DirectoryDoesNotOpen`).
- `ReadsGiveFile`, `OffsetKeepsUp`: reads in pieces give a file below 2 GiB whatever their sizes, and a larger
  one if each but the last returns fewer than 2^31 bytes; the offset follows exactly while each does
  (`LongReadsRepeat`).
- `TarRead`: a read that starts inside the file leaves it exactly when offset + size wraps past 2^64.
- `ReadsTrack`: the timer's accumulator is exact exactly when no two reads are a wrap apart
  (`WrapIsMissed`).
- `SleepIsLongEnough`: busy_sleep_ns is not short exactly when the product of nanoseconds and frequency
  is below 2^64 and the time is a whole number of ticks (`LongSleepIsCutShort`).
- `TimeSpec.Real`: the time of day is right exactly when the nanoseconds since the boot time's second fit
  63 bits and the seconds do.

## Model

| member | source | states |
|---|---|---|
| PageBits.LeafWordBits | src/memory/vmm.c:152-155 | the entry vmm_map computes with C bit operations spells, bit by bit, LeafWord of that frame and those flags |
| PageBits.TableWordBits | src/memory/vmm.c:94-102 | the entry get_next computes spells TableWord: present, writable, and only the user and cache hints |
| PageBits.SanitizeBits | src/memory/vmm.c:108-123 | masking the flags by level leaves the user bit from level 1 on and the cache hints at level 3 only |
| PageBits.ZeroBits | src/memory/vmm.c:81 | a cleared page holds 512 words whose fields are all zero |
| PageBits.LinkBits | src/memory/pmm.c:30-38 | the pointer the free list keeps in word 0, a page's address in the direct map, spells Link |
| PageBits.IndexBits | src/memory/vmm.c:143-146 | shifting and masking an address gives digits below 512 that with the page offset make up its bits 0 to 47 |
| PageTables.PathOfDigits | src/memory/vmm.c:143-146 | of all such digits and offsets exactly those of PathOf make up the low 48 bits of the address |
| MemoryMap.RegionFramesExact | src/memory/pmm.c:52-75 | one entry of the memory map yields exactly the aligned frames wholly inside it, from 1 MiB on |
| MemoryMap.UsableFramesExact | src/memory/pmm.c:40-83 | the one-shot enumeration contains a frame if and only if it lies wholly inside some usable entry at or above 1 MiB |
| MemoryMap.FramesFromNoDup | src/memory/pmm.c:40-83 | over non-overlapping entries no frame is enumerated twice |
| PhysicalMemory.FillRunIsOneFill | src/memory/pmm.c:40-83 | filling any number of times with any page counts gives the same list as one fill with their sum |
| PhysicalMemory.FillRunFindsAll | src/memory/pmm.c:40-83 | once the counts add up, repeated filling has listed every usable frame, each once |
| PhysicalMemory.Pmm.constructor | src/memory/pmm.c:3-5 | at boot every usable frame is available and none listed |
| PhysicalMemory.Pmm.AllocPage | src/memory/pmm.c:13-28 | the page is an available frame, cleared, no longer available; the panic is reached exactly when no usable frame is left; frames in use are not touched |
| PhysicalMemory.Pmm.FreePage | src/memory/pmm.c:30-38 | a usable frame in use becomes the head of the free list; of all memory only its first word changes |
| PhysicalMemory.Pmm.Fill | src/memory/pmm.c:40-83 | lists the next frames of the enumeration in order, up to the count, writing only their first words, and leaves the cursor exactly behind them; terminates by entries left, then pages left |
| PhysicalMemory.Pmm.FillEntry | src/memory/pmm.c:65-80 | the same within one entry, including stopping in the middle of it |
| FrameRuns.Conserved | src/memory/pmm.c:13-38 | after any history available and handed-out frames partition the usable ones |
| FrameRuns.NoDoubleHandOut | src/memory/pmm.c:13-38 | a frame handed out twice was given back in between |
| FrameRuns.Serve | src/memory/pmm.c:13-38 | any sequence of allocations and of frees of what was allocated makes such a history |
| PageTables.LookupIsFlat | src/memory/vmm.c:253-290 | the four-level walk through memory gives what the flat map of the owned tables says |
| PageTables.AddTable | src/memory/vmm.c:91-103 | linking a cleared frame keeps every table in its own frame and every slot consistent |
| PageTables.SetLeaf | src/memory/vmm.c:152-155 | writing a leaf entry changes that slot of the flat map and nothing else, and keeps the tables consistent |
| PageTables.ChangedIsRemapped | src/memory/vmm.c:125-178 | a changed leaf changes the translation of one page in every space that shares the table and of no other page anywhere |
| PageTables.GrownIsSame | src/memory/vmm.c:85-106 | new tables made on the way change no translation of any address space |
| PageTables.RightsComeFromLeaf | src/memory/vmm.c:85-158 | in a process's own half the AND of writable and user and the OR of no-execute over the four levels equal the leaf's own flags; in the kernel's half so do writable and no-execute wherever the boot loader's upper entries allow writing and execution; nowhere is more granted than by the leaf |
| PageTables.KernelHalfAgrees | src/memory/vmm.c:22-29 | upper-half addresses whose top slot agrees translate in every space as in the kernel's |
| PageTables.NewRoot | src/memory/vmm.c:194-207 | a PML4 with the kernel's upper half and an empty lower half joins the tables consistently |
| PageTables.CreatedFrom | src/memory/vmm.c:194-207 | the new space translates the upper half as the kernel does and nothing below; all others are unchanged |
| PageTables.MappableTables | src/memory/vmm.c:166-168 | where the three upper levels are present, the frames vmm_unmap walks to are the tables of that page |
| Teardown.PushedIsHeld | src/memory/vmm.c:209-251 | every frame the nested loops push is a table below, or a page mapped there |
| Teardown.HeldIsPushed | src/memory/vmm.c:209-251 | every such table and page is pushed |
| Teardown.AllPushesExact | src/memory/vmm.c:209-251 | a frame is pushed if and only if it is the PML4, a table of the process's half, or a page mapped in it |
| Teardown.AllPushesNoDup | src/memory/vmm.c:209-251 | when every page is mapped once, no frame is pushed twice |
| Teardown.DestroyedFrom | src/memory/vmm.c:209-251 | afterwards the remaining tables are consistent and every other space translates as before |
| Teardown.PrivateIsHeldOnce | src/memory/vmm.c:231-238 | if no two pages of the lower half share a frame and all are handed-out frames, destroying is safe |
| VirtualMemory.Vmm.constructor | src/memory/vmm.c:16-20 | the boot loader's tables, in frames it does not offer for use, are a valid start, whatever access their entries allow |
| VirtualMemory.Vmm.FramesPartitioned | src/memory/pmm.c:13-83 | in every state the listed, the not yet listed and the table frames are pairwise disjoint, the lists without repetition; the other usable frames are the handed-out ones |
| VirtualMemory.Vmm.AllocTable | src/memory/vmm.c:71-83 | a cleared frame, or a panic exactly when nothing is available |
| VirtualMemory.Vmm.GetNext | src/memory/vmm.c:85-106 | returns the table of that slot, changing nothing if it is there, or makes it, storing a present, writable, executable entry with the caller's user bit and cache hints; no other slot and no translation changes and no handed-out frame is written to; a shared slot has to be there |
| VirtualMemory.Vmm.TableFor | src/memory/vmm.c:148-150 | of the tables made on the way to a page all carry the user bit and the lowest one the cache hints too |
| VirtualMemory.Vmm.Map | src/memory/vmm.c:125-158 | the page translates to the given frame with the given writable, user, no-execute and cache bits, for its owner: in the upper half that is the kernel; in a process's own half the processor grants exactly those rights; no other page of any space changes, or it panics for a stated reason and no translation changes; either way every handed-out frame reads as before |
| VirtualMemory.Vmm.Unmap | src/memory/vmm.c:160-178 | the page translates no more for its owner, no other page of any space changes, nor any handed-out frame |
| VirtualMemory.Vmm.VirtToPhys | src/memory/vmm.c:253-290 | the frame mapped at the page plus the low 12 bits, or -1, -2, -3 or -4 for the first level that is not present |
| VirtualMemory.Vmm.CreateAddressSpace | src/memory/vmm.c:194-207 | a fresh space with the kernel's upper half; all other spaces and all handed-out frames unchanged |
| VirtualMemory.Vmm.CopyKernelHalf | src/memory/vmm.c:22-29 | slots 256 to 511 are the kernel's, the others stay clear |
| VirtualMemory.Vmm.FreeSlots | src/memory/vmm.c:213-247 | the loops over slots free, in order, exactly what the tables held when destroying began, although freed frames are overwritten on the way |
| VirtualMemory.Vmm.DestroyAddressSpace | src/memory/vmm.c:209-251 | the free list grows by exactly the PML4, all user tables and all pages, each once, in order; every other space keeps its translations and its top-level entries, and the frames still handed out read as before |
| Runs.RunTranslation | src/memory/vmm.c:125-290 | over any history, an address translates as the last map or unmap of its page said, or to nothing |
| Runs.KernelHalfForever | src/memory/vmm.c:22-29 | from its creation on a process translates an upper-half address as the kernel does at that time if the kernel's top-level slot was filled at creation, and to nothing otherwise |
| Runs.StartsRun | src/memory/vmm.c:16-20 | any valid state is the start of such a history |
| Runs.Serve | src/memory/vmm.c:125-251 | each of vmm_map, vmm_unmap, creating and destroying makes a history longer by one such step, and a step that changes nothing is a panic |
| Regions.RetestHits | src/memory/vma.c:140-155 | after a hit in a left subtree, testing the ancestors again hits with the same answer |
| Regions.FirstFitIsLowest | src/memory/vma.c:157-168 | the answer is the lowest address from VMA_BASE on with that many free bytes, and is page aligned |
| Regions.ErrorsAreNoAreas | src/syscalls/memory/memory.c:49-79 | the errors lie in the last 4095 values of 64 bits, where no area lies and first fit never answers |
| Regions.MapKeepsGood | src/syscalls/memory/memory.c:49-70 | searching with the length as asked and inserting it rounded up keeps areas sorted, aligned and disjoint if and only if the new one ends below 2^64 |
| Regions.UnmapKeepsGood | src/memory/vma.c:199-242 | unmapping part or all of an area keeps them so if and only if the address is page aligned |
| Regions.UnmapBacking | src/memory/vma.c:199-242 | exactly [addr, addr+len) loses what stood behind it; every other address keeps its file and offset |
| Regions.UnmapIsTrim | src/memory/vma.c:207-239 | inserting the upper part first and trimming the linked node afterwards gives those areas; when addr+len wraps, addr stays covered |
| Regions.WrappingMunmapMoves | src/memory/vma.c:199-226 | a length whose sum wraps passes the test and moves the area below VMA_BASE |
| VmaTrees.SearchLteIsLast | src/memory/vma.c:87-95 | for any tree shape the nearest-less-or-equal search finds the last area that starts at or before the key |
| VmaTrees.InsertNodeOrder | src/memory/vma.c:79-81 | insertion puts the node at its place in search order |
| VmaTrees.RemoveOrder | src/memory/vma.c:83-85 | removal by identity removes that node and keeps the order of the rest |
| VmaTrees.Scan | src/memory/vma.c:140-155 | the recursive scan of any tree computes the left-to-right sweep over its areas |
| VmaTrees.VmaTree.Find | src/memory/vma.c:87-105 | the area holding the address, if and only if one does |
| VmaTrees.VmaTree.OverlapsAny | src/memory/vma.c:107-138 | true if and only if some area overlaps |
| VmaTrees.VmaTree.FindFreeRegion | src/memory/vma.c:157-168 | first fit; the final overlap check never rejects it |
| VmaTrees.VmaTree.AddPage | src/memory/vma.c:4-19 | the page joins the end of that area's list and nothing else changes |
| VmaTrees.VmaTree.InsertArea | src/memory/vma.c:79-81 | the areas afterwards are the old ones with the new one at its place |
| VmaTrees.VmaTree.MmapRegion | src/memory/vma.c:170-197 | inserts the area and returns its start, or 2^64 - 19 for a file that cannot be mapped |
| VmaTrees.VmaTree.SysMmap | src/syscalls/memory/memory.c:49-70 | 2^64 - 22 for a length that rounds to 0, 2^64 - 19 for a file that cannot be mapped, or the first-fit area of whole pages inserted; only those two answers lie among the errors |
| VmaTrees.VmaTree.Unmap | src/memory/vma.c:207-239 | the areas afterwards are exactly Unmapped of the old ones, and whether the area is gone |
| VmaTrees.VmaTree.SplitUpper | src/memory/vma.c:207-219 | the part above the hole is a new area right behind the one still covering it, or nothing happens |
| VmaTrees.VmaTree.Trim | src/memory/vma.c:221-236 | moving start or end in place, and unlinking an emptied node |
| VmaTrees.VmaTree.RemoveArea | src/memory/vma.c:83-85 | that area is gone and the others keep their order |
| AreaRuns.RunRefinesFlat | src/memory/vma.c:170-242 | over any history of mmap and munmap the areas stay sorted, aligned and disjoint, and show exactly the state of a flat machine that knows only what stands behind each address and where areas begin |
| AreaRuns.FirstFitIsFlat | src/memory/vma.c:157-168 | the sweep finds an address if and only if the flat machine takes it for the lowest with room |
| AreaRuns.HolderIsFlat | src/memory/vma.c:199-206 | one area holds the range if and only if all of it is backed and no area begins inside |
| AreaRuns.Serve | src/syscalls/memory/memory.c:49-79 | the search tree makes these steps |
| AreaRuns.WrappingMmapBreaks | src/memory/vma.c:175 | a length that makes an area empty by wrapping |
| AreaRuns.UnalignedMunmapBreaks | src/syscalls/memory/memory.c:73-79 | an address that leaves an unaligned area |
| UserPages.FaultAgrees | src/memory/vma.c:244-257 | mapping and listing a faulted page keeps an area's list equal to its translated pages, beside the stack |
| UserPages.TakenPage | src/memory/vma.c:252-253 | a page a fault maps is writable and executable by user code, and cached |
| UserPages.AreaDestroyed | src/memory/vma.c:62-77 | destroying an area makes its whole range translate to nothing but the stack's own pages, all else agreeing as before |
| UserPages.AreaTrimmed | src/memory/vma.c:207-239 | a partial unmapping without pages in the hole keeps the agreement, and nothing in the hole translates but the stack's own pages |
| UserPages.TrimAgreesExactly | src/memory/vma.c:207-239 | after split and trim lists and tables agree if and only if no listed page was unmapped |
| UserPages.CleanIsKept | src/memory/vma.c:21-60 | every page the trimmed area lists lies in it if and only if none was unmapped |
| Processes.Process.Cleanup | src/memory/vma.c:21-60 | comes back if and only if every listed page lies in the area |
| UserPages.LostPage | src/memory/vma.c:199-242 | an area and a range that leave vma_cleanup a page to drop |
| UserPages.AreaMapped | src/syscalls/memory/memory.c:49-70 | a new area in the lower half keeps the agreement beside the stack and starts out empty there |
| UserPages.MapAgreesExactly | src/syscalls/memory/memory.c:49-70 | for every length, after mmap the areas are in order and list exactly their translating pages if and only if the new one ends at or below the bottom of the stack |
| UserPages.AllListedExactly | src/memory/vma.c:244-257 | in every state the lists are exactly the translating pages if and only if no area reaches into the stack as far as it has grown |
| Faults.RunListsRight | src/main.c:20-42 | over any run of page faults stack and areas stay in order, the stack only grows, and at its end the lists are right if and only if no area reaches into the stack as it is then |
| Faults.ClearStaysRight | src/main.c:20-42 | areas that leave the range the stack may grow to alone have right lists after every run of faults |
| Faults.StayRightExactly | src/main.c:20-42 | where some run grows the stack to its limit, the lists are right after every run if and only if no area reaches into that range |
| Faults.MapStaysRightExactly | src/syscalls/memory/memory.c:49-70 | after mmap they are right after every run of faults if and only if the new area ends at or below the stack's limit |
| UserPages.LargeMmapCoversStack | src/syscalls/memory/memory.c:49-70 | a length whose area covers the stack of a new process |
| UserPages.OthersKeep | src/memory/vmm.c:125-178 | stack, areas and private pages of a process outlast whatever leaves its lower half alone |
| Processes.Process.Create | src/scheduler/process.c:177-217 | of the lower half exactly the 32 stack pages are mapped, user-writable, to frames nobody held; no other process changes; a panic only for want of usable frames or for a frame beyond the processor's limit |
| Processes.Process.MapStackPages | src/scheduler/process.c:193-217 | the loop maps the pages from the bottom up, taking only frames nobody held |
| Processes.Process.MapFresh | src/scheduler/process.c:139-145 | one page changes, to a frame that was handed out to nobody and reads as zero, user-writable; no other page or process does, and every frame handed out before reads as before |
| Processes.Process.GrowUserStack | src/scheduler/process.c:129-148 | one page more below the stack, until the limit |
| Processes.Process.VmaFault | src/memory/vma.c:244-263 | an anonymous area's absent page is mapped to a frame that reads as zero, and listed; a file's driver answers for itself; areas keep bounds and backing, and lists and tables keep agreeing beside the stack |
| Processes.Process.AnonFault | src/memory/vma.c:244-257 | the anonymous case: the frame was handed out to nobody, reads as zero, and is the one listed and mapped |
| Processes.Process.PageFault | src/main.c:20-42 | exactly when a fault grows the stack by a page, maps and lists the page asked for, or leaves all pages and lists alone; a new page reads as zero, its frame was handed out to nobody, and no frame handed out before is written to |
| Processes.Process.Touch | src/main.c:20-42 | an access at addr in the growth range succeeds after exactly ceil((bottom - addr) / 4096) faults, at most 128, and then the page is user-writable; the faults are such a run, and the lists are right afterwards if and only if no area reaches into the stack down to that page |
| Processes.Process.AgreedExactly | src/memory/vma.c:244-257 | in every valid state the lists are right if and only if no area reaches into the stack |
| Processes.Process.StaysAgreed | src/main.c:20-42 | if no area reaches into the range the stack may grow to, they are right now and after all faults to come |
| Processes.Process.StackPages | src/scheduler/process.c:193-217 | in every valid state all pages of the stack are user-writable and on distinct frames |
| Processes.Process.VmaDestroy | src/memory/vma.c:62-77 | exactly the listed pages are unmapped; the tables vmm_unmap needs are always there |
| Processes.Process.SysMmap | src/syscalls/memory/memory.c:49-70 | inserts the first-fit area; with all areas below the stack before, the areas are in order and lists and tables agree afterwards if and only if it ends at or below the stack's bottom; within the lower half nothing in it translates but the stack's own pages |
| Processes.Process.SysMunmap | src/syscalls/memory/memory.c:73-79 | for whole pages below 2^64: comes back if and only if no page is lost, answers 0 if and only if the range lies in one area, else 2^64 - 22 and nothing changes; on 0 exactly the range loses its backing, and its translations but for the stack's own pages |
| Processes.Process.MunmapRegion | src/memory/vma.c:199-242 | the same for whole pages |
| Processes.Process.Destroy | src/memory/vmm.c:209-251 | the space is gone, no other changes, and frames handed out to others stay handed out and read as before |
| Processes.Process.StepSpares | src/memory/vmm.c:125-178 | a step of one process leaves another in order, with the same stack, areas, translations and page contents, and apart from it |
| Ownership.FreedAreOwned | src/memory/vmm.c:209-251 | destroying an address space takes no frame from whoever holds others |
| Ownership.TakesApart | src/memory/pmm.c:13-28 | who takes only frames handed out to nobody stays apart from all other holders |
| Systems.System.Create | src/scheduler/process.c:177-217 | a new process joins; every other process and the heap stay as they were, contents included, and no frame has two holders |
| Systems.System.PageFault | src/main.c:20-42 | a fault of one process is handled as above, and the same holds |
| Systems.System.SysMmap | src/syscalls/memory/memory.c:49-70 | the same for mmap of an area within the lower half, even one across the stack; its lists are right exactly as above |
| Systems.System.SysMunmap | src/syscalls/memory/memory.c:73-79 | the same for munmap that comes back |
| Systems.System.Destroy | src/memory/vmm.c:209-251 | the process is gone, its tables and pages are free, and the same holds |
| Systems.System.Kmalloc | src/memory/heap.c:104-147 | kmalloc as below leaves every process as it was, and writes to none of its frames |
| Systems.System.Kfree | src/memory/heap.c:149-168 | so does kfree, which frees exactly the block 32 bytes before the pointer |
| Systems.System.MapPage | headers/memory/vmm.h:45-47 | so does whatever the kernel maps outside the heap's range, with the frame and flags given, and the heap stays as it was |
| Systems.System.Stepped | src/memory/vmm.c:125-178 | whatever one process does within its contract keeps the whole system in order, and the pages and contents of every other process and of the heap as they were |
| Systems.System.PagesApart | src/memory/pmm.c:13-28 | in every state no page of one process lies in a frame of another |
| Systems.System.HeapPagesApart | src/memory/heap.c:37-51 | nor any page of a process in a frame of the heap |
| HeapBlocks.RequestFits | src/memory/heap.c:104-133 | a new block holds what was asked for if and only if the size is at most 2^64 - 4128 |
| HeapBlocks.Round16Exact | src/memory/heap.c:104-107 | the size is rounded up to the next multiple of 16, but the largest 15 to 0 |
| HeapBlocks.PagesForExact | src/memory/heap.c:132-133 | as many whole pages as header and size need and no more, up to where the sum wraps |
| HeapBlocks.HugeRequestsWrap | src/memory/heap.c:104-133 | two sizes whose block is too small or has no page |
| HeapBlocks.WalkStep | src/memory/heap.c:114-130 | every pointer met on the walk passes block_is_valid, so the walk is never cut short |
| HeapBlocks.ChainedApart | src/memory/heap.c:33-59 | between any two blocks lies a page |
| HeapBlocks.ServedLinked | src/memory/heap.c:112-147 | a served request keeps the list linked from its head through every block |
| HeapBlocks.NoneMeans | src/memory/heap.c:112-130 | no block fits if and only if every block is in use or too small |
| HeapBlocks.FirstMeans | src/memory/heap.c:112-130 | the first that fits is free and large enough, and every block before it in the list is in use or too small |
| HeapBlocks.OnePageMore | src/memory/heap.c:37-51 | a page requested is mapped to a frame the heap did not hold; no two heap pages share a frame |
| HeapBlocks.HeapBeside | headers/memory/vmm.h:45-47 | a mapping of the kernel outside the heap's range changes no page in it |
| KernelHeap.Heap.constructor | src/memory/heap.c:30-31 | the empty heap, with nothing mapped between HEAP_START and the bound its cursor never reaches, is valid |
| KernelHeap.Heap.RequestAll | src/memory/heap.c:37-51 | the loop maps that many consecutive pages, or panics for want of a usable frame the processor can address |
| KernelHeap.Heap.RequestPages | src/memory/heap.c:33-59 | consecutive pages mapped writable and not executable, one guard page skipped, the cursor never wraps |
| KernelHeap.Heap.Reuse | src/memory/heap.c:112-130 | the first free block that fits, or none fits |
| KernelHeap.Heap.Extend | src/memory/heap.c:132-146 | a new block in fresh pages in front of the list |
| KernelHeap.Heap.Kmalloc | src/memory/heap.c:104-147 | a 16-aligned block nobody holds, as large as asked, all other blocks unchanged; new pages, in frames handed out to nobody, a panic or a fault only if no free block fits, a panic only if memory is used up or beyond the processor's limit; no process notices |
| KernelHeap.Heap.Kfree | src/memory/heap.c:149-168 | of all pointers exactly those 32 bytes behind a block's header free that block and change nothing else; null and pointers that are not page aligned before the header change nothing |
| KernelHeap.Heap.Kcalloc | src/memory/heap.c:170-184 | null if and only if the product does not fit 64 bits, else as kmalloc of the product |
| KernelHeap.Heap.BlockMapped | src/memory/heap.c:37-51 | every byte of a block is on a page the kernel may write but not execute and user code may not touch, in a frame the heap holds |
| KernelHeap.Heap.GuardUnmapped | src/memory/heap.c:53-56 | the page behind every block is not mapped |
| KernelHeap.Heap.BlocksApart | src/memory/heap.c:33-59 | two blocks never touch |
| KernelHeap.Heap.Undisturbed | src/memory/heap.c:30-59 | steps of processes leave the heap's blocks, pages and contents as they are |
| HeapRuns.LiveHolds | src/memory/heap.c:104-168 | over any history a live allocation is still allocated, aligned and large enough |
| HeapRuns.NeverLive | src/memory/heap.c:104-168 | kmalloc never returns what is still live |
| HeapRuns.LiveApart | src/memory/heap.c:104-168 | live allocations are pairwise disjoint |
| HeapRuns.RunLinked | src/memory/heap.c:104-168 | over any history the list stays linked |
| HeapRuns.ReleaseFrees | src/memory/heap.c:149-168 | over any history, releasing the pointer a live allocation was answered with frees that block and no other |
| HeapRuns.FreedIsReused | src/memory/heap.c:104-168 | after that an allocation of the same size takes no new page |
| HeapRuns.Serve | src/memory/heap.c:104-168 | any sequence of kmalloc and kfree makes such a history, up to a stray pointer or a request that no block fits and for which there is no frame, or no page count |
| Descriptors.FileTables.constructor | src/filesystem/fd/fd.c:7-12 | no open files, no processes |
| Descriptors.FileTables.Init | src/filesystem/fd/fd.c:173-179 | a process joins with an empty table |
| Descriptors.FindFree | src/filesystem/fd/fd.c:72-82 | the lowest free index, or the length |
| Descriptors.GrowFiles | src/filesystem/fd/fd.c:14-34 | doubling the file table keeps every descriptor's file |
| Descriptors.GrowFds | src/filesystem/fd/fd.c:36-56 | so does doubling a descriptor table |
| Descriptors.PutCounts | src/filesystem/fd/fd.c:14-89 | an open takes one free entry, after doubling a full table |
| Descriptors.FileTables.OfOpen | src/filesystem/fd/fd.c:58-89 | when it succeeds, and that the file takes the lowest free slot with count one |
| Descriptors.FileTables.OfClose | src/filesystem/fd/fd.c:91-100 | one count less, the slot empty when none is left |
| Descriptors.FileTables.FdOpen | src/filesystem/fd/fd.c:102-134 | when it succeeds, in terms of free entries and of what the allocator answers; then the lowest number not in use gets the file and no other descriptor changes; a failure changes none; descriptors and slots stay in bijection |
| Descriptors.FileTables.FdClose | src/filesystem/fd/fd.c:147-160 | that descriptor and no other is gone, or -1 |
| Descriptors.FileTables.Unpack | src/filesystem/fd/fd.c:162-171 | the descriptor's file, or null |
| Descriptors.FileTables.FdBase | src/filesystem/fd/fd.c:136-145 | answers 0 if and only if the three opens succeed in turn, which the free entries and the answers decide; the files of those that succeed go to 0, 1 and 2 of a process without descriptors, also when a later one fails; it makes such a history, and what was open stays open |
| Descriptors.AllSucceed | src/filesystem/fd/fd.c:136-145 | opens in turn all succeed when the files are found and each table has room for them or can grow |
| Descriptors.RunFiles | src/filesystem/fd/fd.c:102-171 | over any history of several processes descriptors and slots stay in bijection, and a descriptor's file is what the last open or close of it said |
| Descriptors.RunDistinct | src/filesystem/fd/fd.c:102-160 | over any history two descriptors never share a slot, each slot's count is one, and an open number is never handed out |
| Descriptors.Serve | src/filesystem/fd/fd.c:102-179 | any sequence of starts, opens and closes makes such a history, each call failing exactly when stated |
| TarFiles.OctalRoundTrip | src/filesystem/fs/tarfs/tarfs.c:58-69 | the value of the octal digits of n is n |
| TarFiles.DigitSigned | src/filesystem/fs/tarfs/tarfs.c:58-69 | a digit is read as a signed char |
| TarFiles.OctToBin | src/filesystem/fs/tarfs/tarfs.c:58-69 | the loop computes the digits' value modulo 2^64 |
| TarFiles.Init | src/filesystem/fs/tarfs/tarfs.c:71-128 | for any archive of up to 63 files every child has its file's size and bytes, and the name n for a file "./" + n, any other name unchanged |
| TarFiles.ReadEntry | src/filesystem/fs/tarfs/tarfs.c:77-111 | the same for one header, and where the next one lies |
| TarFiles.EncodeIsArchive | src/filesystem/fs/tarfs/tarfs.c:71-112 | every list of files, encoded, is an archive that parses back |
| TarFiles.EntryFits | src/filesystem/fs/tarfs/tarfs.c:77-111 | whatever can stand in an archive can be encoded |
| TarFiles.EncodedBlocks | src/filesystem/fs/tarfs/tarfs.c:71-112 | an encoded archive is whole blocks of 512 bytes, the last two zero |
| TarFiles.FindVnode | src/filesystem/vfs/vfs.c:5-90 | the search computes Find: full names first, then the walk by components |
| TarFiles.FindIsChild | src/filesystem/vfs/vfs.c:5-90 | for every path: a child is found if and only if it is the first with that name, slashes at the ends aside, or the first named by the one component of a path with two slashes behind it |
| TarFiles.FindIsRoot | src/filesystem/vfs/vfs.c:5-90 | the root is found under "", "/" and, unless a child has no name, "//", and no other path |
| TarFiles.Walk | src/filesystem/vfs/vfs.c:39-89 | the component loop, with its refusals of empty and long components; WalkIsChild says when it ends at a child |
| TarFiles.WalkIsChild | src/filesystem/vfs/vfs.c:39-89 | the walk ends at a child if and only if the path is one component and a slash, and that child is the first so named |
| TarFiles.OpensItself | src/filesystem/vfs/vfs.c:5-37 | "/" and a file's name finds that file if and only if the name is not empty and does not end in a slash |
| TarFiles.DirectoryDoesNotOpen | src/filesystem/vfs/vfs.c:13-37 | a directory entry of the archive does not open under its own name |
| TarFiles.Open | src/filesystem/vfs/vfs.c:110-135 | a handle on the node found, at offset 0 |
| TarFiles.FileHandle.TarRead | src/filesystem/fs/tarfs/tarfs.c:15-32 | exactly the file's bytes in [offset, offset + size), cut at the end of file, unless the sum of an offset inside the file and the size wraps, which is when the copy leaves it |
| TarFiles.FileHandle.Read | src/filesystem/vfs/vfs.c:137-156 | the same, and the offset in every case: it follows if and only if the count returned is below 2^31 |
| TarFiles.FileHandle.ReadAll | src/filesystem/vfs/vfs.c:137-156 | reads of any sizes, kept one after the other, are Chunks, until one leaves the file, which happens exactly when some sum wraps as above |
| TarFiles.SmallStaysInside | src/filesystem/fs/tarfs/tarfs.c:15-32 | no read leaves the file if file and request together fit 64 bits |
| TarFiles.ToIntExact | src/filesystem/fs/tarfs/tarfs.c:31 | the count a read returns is the signed 32-bit number that equals the bytes copied modulo 2^32 |
| TarFiles.ReadsGiveFile | src/filesystem/vfs/vfs.c:137-156 | reads of any sizes concatenate to a file below 2 GiB if and only if the sizes add up to at least its length; of a larger file the same holds if every read but the last returns fewer than 2^31 bytes |
| TarFiles.OffsetKeepsUp | src/filesystem/vfs/vfs.c:137-156 | for sizes of any kind the offset equals the bytes returned if and only if each read returned fewer than 2^31 |
| TarFiles.LongReadsRepeat | src/filesystem/vfs/vfs.c:137-156 | a file of 4 GiB read in two halves does not come out |
| TarFiles.RoundTrip | src/filesystem/fs/tarfs/tarfs.c:71-128 | a file archived as "./" + n, or as n, opens as "/" + n, and reading it in pieces gives its bytes if and only if the sizes add up to them, under the same condition |
| Calendar.DaysSinceEpoch | headers/time/helpers_time.h:7-27 | the loops compute the closed formula for every valid date from 1970 on |
| Calendar.RtcToTimespec | src/time/clocks/rtc.c:16-42 | the seconds are those of the POSIX formula |
| Calendar.DaysOrdered | headers/time/helpers_time.h:7-27 | the day count orders valid dates as the calendar does, and tells them apart |
| Calendar.SecondsOrdered | src/time/clocks/rtc.c:30-36 | the seconds are strictly increasing in time |
| Calendar.NextDayCounts | headers/time/helpers_time.h:7-27 | the count is 0 at the epoch and one more each following day |
| Calendar.BcdRoundTrip | src/time/clocks/rtc.c:86-96 | decoding a binary-coded number below 100 gives it back |
| Calendar.TimeSpec.Normalize | headers/time/helpers_time.h:29-38 | nanoseconds in [0, 10^9), for negative values too, and the same instant if and only if its seconds fit 64 bits |
| Calendar.TimeSpec.Real | src/time/clocks/rtc.c:5-10 | boot time plus time since, normalized, if and only if the nanoseconds fit 63 bits and the seconds 64 |
| PmTimers.MaskIsModulus | src/time/clocks/pm_timer.c:15-21 | the masked difference is the remainder the model uses |
| PmTimers.PmTimer.Read | src/time/clocks/pm_timer.c:9-27 | the accumulator gains the true count modulo 2^24 or 2^32, hence exactly it if and only if less than a wrap has passed |
| PmTimers.ReadsTrack | src/time/clocks/pm_timer.c:9-27 | over any run of reads the accumulator gains the true count if and only if no two reads are a wrap apart |
| PmTimers.WrapIsMissed | src/time/clocks/pm_timer.c:9-27 | two reads a wrap apart leave the accumulator where it was |
| PmTimers.BusySleepTicks | src/time/clocks.c:198-202 | returns at the first read that is late enough, never before |
| PmTimers.SleepIsLongEnough | src/time/clocks.c:182-186 | the ticks waited for cover the nanoseconds asked if and only if the product fits 64 bits and is a whole number of ticks; if it fits, less than one tick is missing |
| PmTimers.SleepTicksOf | src/time/clocks.c:182-186 | the ticks are the low 64 bits of the product divided by 10^9, rounded down |
| PmTimers.BusySleepNs | src/time/clocks.c:182-186 | returns at the first read that many ticks later, and then the time asked for has passed |
| PmTimers.LongSleepIsCutShort | src/time/clocks.c:182-186 | seven seconds at 3 GHz are cut to less than one |

## Left out

- Hardware effects: CR3 loads, invlpg, port I/O and interrupts do nothing in the model; what the hardware answers is a parameter.
- Locks and preemption: the code has none in these parts (only reminders to add them); operations are atomic.
- Tables the boot loader built with large pages: the walk ignores the PS bit; the starting tables are assumed to be 4-level.
- Physical memory as an array: it is one field of type seq, updated as a whole, so aliasing between pointers into the same frame is expressed by frame numbers.
- VirtualMemory.Vmm.FreeSlots: one method for the four nested loops, recursive in the table level; order of reads and frees is kept.
- VirtualMemory.Vmm.Map: the address is taken as its four indices; of two addresses that differ only above bit 47 one stands for both. In the upper half of a process it requires the top-level slot to be filled: the table made otherwise would be the process's alone.
- VirtualMemory.Vmm.DestroyAddressSpace: requires that all pages of the lower half are the process's own frames; device and framebuffer mappings are not.
- External bstree library: any tree shape with search order; rebalancing, parent pointers and successor links are not modelled, the walk goes over the in-order sequence.
- Processes.Process.Cleanup: what vma_cleanup does once it meets a page to drop: it stays on an entry it has freed.
- Processes.Process.SysMmap: an area that ends past 2^47 is only shown to make the lists wrong; the code then maps its pages at aliased addresses.
- Processes.Process.SysMunmap: requires a page-aligned address and no wrap; what happens otherwise is stated by UnmapKeepsGood and UnmapIsTrim on areas alone.
- Processes.Process.VmaFault: a file's driver is one boolean; the pages it maps itself are not modelled, nor is the second clearing of the new page.
- Munmap does not give frames back; neither does the code.
- ELF loading, the initial stack contents, and process_create's failure paths, which free stack pages that destroying the address space has freed already.
- The heap with KMALLOC_CANARY, and the bytes of its blocks: headers are kept in a map, not in the frames, and kcalloc's memset is not shown.
- KernelHeap.Heap.constructor: assumes at most 16 TiB of usable memory, so that the cursor stays within its range, and that the boot loader maps nothing there.
- Systems.System.MapPage: no caller is modelled; that the kernel's other mappings avoid the heap's range is its precondition.
- PageTables.RightsComeFromLeaf: in the kernel's half only where the boot loader's upper entries allow writing and execution; what user code may do there besides the leaf's own flag is the boot loader's choice.
- KernelHeap.Heap.Kcalloc: the zeroing of the block is not stated.
- KernelHeap.Heap.Kfree: requires that a page-aligned address behind the pointer is a block's; what else may stand there is not in the model.
- TarFiles.Open: without O_TRUNC, and without mount points below the root; a handle on the root directory itself is not modelled.
- TarFiles.FindVnode: descending into a file as if it were a directory reads its bytes as pointers; the result Beyond stands for that.
- TarFiles.FileHandle.TarRead: what a copy that leaves the file returns is not modelled, only when it does.
- Reading the clock chip until two readings agree, the 12-hour branch, and overflow in converting ticks to nanoseconds; the other direction is SleepIsLongEnough.
- The scheduler, uACPI, the terminal, the framebuffer and devfs.
