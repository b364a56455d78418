# Verified model of the sbuOS kernel core

This project models the parts of a small x86-64 kernel that keep mutable state through many short
operations, and proves what every run of these operations preserves. Check it with
`dafny verify dfyconfig.toml`.

| files | part of the kernel |
|---|---|
| `Words`, `HeapModel`, `HeapSteps`, `HeapPayload`, `KernelHeap`, `HeapRuns` | the boundary-tag allocator of `sys/memory/kmalloc.c` |
| `FreeFrames`, `PageTables`, `AddressModel`, `AddressSteps`, `AddressSpaces`, `MemoryRuns` | page tables, m_map lists, use records and copy-on-write (`sys/thread/kthread.c`, `sys/memory/phy_page.c`, the page-fault branch of `sys/idt.c`) |
| `KernelBreak` | `_kbrk` and `kbrk` of `sys/memory/phy_page.c` |
| `Pipes`, `Descriptors` | pipes and descriptor reference counts |
| `SimpleFs` | the on-disk file system |
| `Paths` | `shorten_path` and `calculate_path` |
| `DiskQueue` | the disk task queue and AHCI command slots |
| `Scheduler` | `process_schedule` |
| `ExecStack` | the initial stack of `sys_exec` and its reader in `crt/crt1.c` |
| `Bytes`, `Tarfs`, `Loader` | the ustar archive, ELF headers, and the memory image of a program |
| `PageBytes`, `Programs`, `Execs` | `spawn_process` and `sys_exec` with the contents of a program: from the archive through the page tables to what the process reads |

## How the model reads

**Kernel heap.** Memory is an array of 64-bit words; a word is the bit-field triple of a header or a
plain number, and two readings of one word agree (`Words.TwoReadings`). Pointers are word indices and
NULL is 0. The kernel break is a counter over the 1 GB window; running out of the window halts the
system, as `kbrk` does. The ghost set `starts` holds the block headers. `WellFormed` ties three views
together: blocks tile the words between prologue and epilogue, header and footer of each block agree,
and the links inside free blocks form a list in increasing address order; `HeapModel.TiledExactly` and
`HeapModel.FreeListIsOrdered` spell this out. `Coalesced` says that no two free blocks touch. Each call
of `error` in the source raises `complaints`, and every operation leaves that counter as it was. The
C code keeps the block size in an `int`, so requests above `INT_SAFE` bytes are computed wrongly:
`KernelHeap.SizeNeededExact` gives the exact bound and `KernelHeap.SizeNeededWraps` an input beyond it.
Pointers given to free and realloc are live or fail the range and alignment tests. `HeapRuns` puts the
calls together: over every run of requests and writes, the heap is a store in which every pointer has
bytes of its own.

**Address spaces.** Frames are 512-entry arrays; the table format is that of section 5.3 of the AMD64
Architecture Programmer's Manual, Volume 2. `Trees` says that the tables reachable below the PML4 of
each process form a tree that shares no frame. `Inv` adds the use records, the m_map lists and the flat
map `at` from pages to m_maps, and the kernel's own entries in every PML4 (`KernelOk`); `Valid` is the invariant
between operations. `View` is what a process
reads in a page. User addresses have a PML4 index of at most 509, ELF segments are page-disjoint, and
faults come from user mode. A search that finds no free page makes an operation fail (`ok` is false);
the kernel would then dereference NULL (so too for `OutOfMemory` in `KernelBreak`). Every contract limits
this with `FreeFrames.Took`: an operation fails only at a moment when no frame is free, takes at most a
stated number of frames, and cannot fail if that many are free. An m_map's address is a number that is
never used twice, and process numbers come from `id_count`. `MemoryRuns` puts the operations together: over
every run of spawn, fork, exec, faults, stores and cleanups, each process sees what it would see on a machine
where every process has a memory of its own.

**Programs.** `Programs.ByteAt` is what a process reads at a virtual address: the byte of the page that
`View` shows for it. `Loader.Image` is the flat memory that the loops of `spawn_process` build up, byte by
byte; `Programs` proves that the tables show exactly this image. `Execs` does the same for `sys_exec`, which
lays blank pages first and writes the contents later.

**Others.** Each module's opening comment says what stands for what. Processes on hold, the hardware's
completions and errors, and a port that hangs are parameters or steps of their own.

## Findings

Where the code does less than one would expect, the model follows the code:

- At producer cursor 0 the pipe's test for emptiness never holds, so a read takes bytes that were never
  written (`Pipes.ReadPastTheEnd`). `Pipes.FetchIsFifo` gives the exact condition for a correct read.
- A pipe write that does not fit returns before it wakes the readers (`Pipes.LostWakeup`).
- `dup(fd, fd)` closes the descriptor and fails, and descriptor 16 passes the bounds test though the table
  ends at 15 (`Descriptors.FileTable.Dup` has the exact condition, `Descriptors.DupPastTheTable` a case).
- A process reaped before it is cleaned up leaves its descriptors counted for good, and reaping the first
  process of the list empties the list (`Descriptors.FileTable.Reap`, `Descriptors.LostDescriptors`).
- Of a run of `.` components every second one survives `shorten_path` (`Paths.DotPairExample`), and a `..`
  behind a doubled slash goes back over nothing, so that "/x//../y" becomes "/x/y"
  (`Paths.EmptyPopExample`). `Paths.ShortenResolvesIff` gives the exact condition. After a `..` above the root
  the index is one too far, so that "/../../y" becomes "/.y" (`Paths.StrayExample`); a name that ends in a dot
  joins the next one, so that "/x./y" becomes "/xy" (`Paths.DotEndedExample`); and a path that ends in a `.`,
  or in a `..` above the root, makes the kernel read on behind the end (`Paths.ShortenUnderstood` has the exact
  condition).
- `spawn_process` writes through a NULL page exactly for a section without bytes in the file that does not
  start on a page boundary (`Programs.LoadSection`), and `sys_exec` stops at an assertion if a section's zero
  bytes reach into another page (`Execs.ExecProgram`).
- `read_oct` shifts an `int`: sizes of 2^31 and more come out wrong (`Tarfs.OctExact`, `Tarfs.OctOverflows`).
- The upper half of a disk sector number is lost (`DiskQueue.Sector`).
- `_kbrk` stops working one page after 509 full tables, although 510 tables fit
  (`KernelBreak.KernelSpace.KbrkPage`).
- Disk writes do not advance the file offset, so a second write goes over the first
  (`SimpleFs.Disk.SecondWrite`; `SimpleFs.WriteAppendsIff` says when a write appends).
- A disk read beyond the end of a file hands out bytes that were never written, or reads past the block
  (`SimpleFs.Disk.StaleRead`; the exact condition is in `SimpleFs.Disk.Read`).
- A hanging port stops the kernel if a waiting disk task could have been issued (`DiskQueue.Driver.Poll`).

## Model

| member | source | states |
|---|---|---|
| `Words.TwoReadings` | include/sys/memory/kmalloc.h:11-22 | a word read as a header and as a number is the same word: the number determines all three bit fields |
| `Words.SetByteIsLocal` | sys/memory/kmalloc.c:154 | writing one byte of a word changes that byte and no other |
| `HeapModel.TiledExactly` | sys/memory/kmalloc.c:244-279 | every word between prologue and epilogue lies in exactly one block |
| `HeapModel.FreeListIsOrdered` | sys/memory/kmalloc.c:84-126 | following next links from the head visits exactly the free blocks, in increasing address order; the head's previous link is 0 and every later member's leads to the member before it |
| `HeapModel.Disjoint` | sys/memory/kmalloc.c:26-37 | two different blocks do not overlap |
| `HeapModel.Retile` | sys/memory/kmalloc.c:189-242 | any change of blocks inside one stretch of words that tiles that stretch keeps the whole tiling |
| `HeapModel.Relink` | sys/memory/kmalloc.c:84-126 | rewriting the links around one place of the free list gives the list of the new set of free blocks |
| `HeapModel.RebuildCoalesced` | sys/memory/kmalloc.c:281-313 | after a stretch is rebuilt with one free block that touches no other, no two free blocks touch |
| `HeapModel.Grow` | sys/memory/kmalloc.c:244-279 | new pages at the end as one free block keep tiling, tags and list |
| `HeapSteps.MergeAround` | sys/memory/kmalloc.c:281-313 | sf_coalescing merges the maximal run of free blocks (only forward, if asked) into one, keeps all live blocks and the list, and makes no complaint |
| `HeapSteps.TakeFront` | sys/memory/kmalloc.c:189-242 | splitting a free block: the front becomes live, the rest takes its place in the list |
| `HeapSteps.TakeWhole` | sys/memory/kmalloc.c:189-242 | a free block taken as a whole leaves the list |
| `HeapSteps.PutBack` | sys/memory/kmalloc.c:84-126 | the freed block enters the list at the place its address gives it, no word of another block's payload changes |
| `HeapPayload.PayloadWritten` | sys/memory/kmalloc.c:128-187 | writes inside a live payload keep tiling, list, and every other block |
| `HeapPayload.CopyBytes` | sys/memory/kmalloc.c:154 | the byte-wise copy between two payloads: the bytes arrive, nothing outside the target changes |
| `HeapPayload.ZeroBytes` | sys/memory/kmalloc.c:181-187 | the bytes are zero, nothing else changes |
| `KernelHeap.SizeNeededExact` | sys/memory/kmalloc.c:49-78 | the `int` size of an accepted request is the true one if and only if the request is at most INT_SAFE bytes |
| `KernelHeap.SizeNeededWraps` | sys/memory/kmalloc.c:49-78 | a 4 GB request is accepted and its size wraps to one unit |
| `KernelHeap.FindFit` | sys/memory/kmalloc.c:51-62 | the search returns the first free block in address order that fits, or the last free block if none does, without complaint |
| `KernelHeap.Heap.constructor` | sys/memory/kmalloc.c:15-17 | the heap before its first request is valid |
| `KernelHeap.Heap.Coalesce` | sys/memory/kmalloc.c:281-313 | the run around the block becomes one free block; no complaint |
| `KernelHeap.Heap.Allocate` | sys/memory/kmalloc.c:189-242 | the block becomes live with the requested size; a remainder of at least 4 words stays free; no complaint |
| `KernelHeap.Heap.InsertFree` | sys/memory/kmalloc.c:84-126 | the live block is free and in the list; all else is kept; no complaint |
| `KernelHeap.Heap.GetMoreSpace` | sys/memory/kmalloc.c:315-334 | asks for the least number of pages that, with a free tail, make room; halts exactly when the window is exhausted |
| `KernelHeap.Heap.InitializeMore` | sys/memory/kmalloc.c:244-279 | new pages joined with a free tail are one free block of a coalesced heap |
| `KernelHeap.Heap.InitializeFirst` | sys/memory/kmalloc.c:244-279 | the first pages become prologue, one free block and epilogue |
| `KernelHeap.Heap.Extend` | sys/memory/kmalloc.c:64-77 | after growth the last block is free and big enough; live blocks are untouched |
| `KernelHeap.Heap.Malloc` | sys/memory/kmalloc.c:49-78 | validity is kept; the result is 16-byte aligned, was not live, holds the request with under 32 bytes of slack; all live payloads are untouched; exactly 0 and sizes above 2^32 are refused; if a free block fits, the lowest such block is taken; pages are taken only if none fits, and then the fewest; it halts exactly if these do not fit into the window; no complaint |
| `KernelHeap.SuppliedOrNoRoom` | sys/memory/kmalloc.c:315-334 | a request halts the system exactly if no free block fits and the pages it would take exceed the window |
| `KernelHeap.Heap.CheckPtrValidity` | sys/memory/kmalloc.c:336-353 | accepts every live pointer and rejects what the range and alignment tests reject |
| `KernelHeap.Heap.FreeLive` | sys/memory/kmalloc.c:84-126 | the block is no longer live, all other live blocks are untouched; a forward-only free leaves at most the block before it uncoalesced |
| `KernelHeap.Heap.Free` | sys/memory/kmalloc.c:80-126 | validity is kept; exactly that block stops being live; rejected pointers change nothing; no complaint |
| `KernelHeap.Heap.GrowInPlace` | sys/memory/kmalloc.c:137-149 | growing into the next block keeps the bytes, also in the two words used as links meanwhile, and leaves no two free blocks adjacent |
| `KernelHeap.Heap.MoveElsewhere` | sys/memory/kmalloc.c:150-157 | the bytes move to a new block and the old one is freed; pages and halting are those of the request for the new block |
| `KernelHeap.Heap.Shrink` | sys/memory/kmalloc.c:162-178 | the block keeps its place and bytes and exactly the words of the request; what is cut off is free, in one block with a free block after it |
| `KernelHeap.CutIsFree` | sys/memory/kmalloc.c:162-178 | in a coalesced heap, everything that a block gives up by getting shorter is free and in one piece |
| `KernelHeap.Heap.Realloc` | sys/memory/kmalloc.c:128-179 | on every branch the first min(old requested, new) bytes are kept, all other live payloads are untouched, validity is kept, no complaint; the block then holds the request with under 32 bytes of slack, so that a block with four words or more to spare is cut and gives the rest back; the pointer stays the same exactly if the block, with a free block after it, has room, and then no page is taken; otherwise pages and halting are those of a new request; NULL exactly for sizes that malloc refuses and for rejected pointers |
| `KernelHeap.Heap.Calloc` | sys/memory/kmalloc.c:181-187 | like malloc of the product modulo 2^64, with all requested bytes zero, and with the same choice of block, pages and halting |
| `HeapRuns.NoOverlap` | sys/memory/kmalloc.c:49-187 | the bytes of two live pointers share no word |
| `HeapRuns.Perform` | sys/memory/kmalloc.c:49-187 | every request, and every write of a client into a block of its own, does to the live blocks what it does to a store of separate byte strings; it halts only if there is no room |
| `HeapRuns.Run` | sys/memory/kmalloc.c:49-187 | the same over every run of malloc, calloc, realloc, free and writes, without a complaint |
| `HeapRuns.KeptByte` | sys/memory/kmalloc.c:128-179 | a run from the first request: a byte survives its block's move |
| `HeapRuns.TakenFromTheRest` | sys/memory/kmalloc.c:162-178 | on a new heap, 4000 bytes are cut to 16, and 3000 more bytes then take no page |
| `FreeFrames.NoneFree` | sys/memory/phy_page.c:19-26 | the count of free frames is 0 exactly if no page entry is marked free |
| `FreeFrames.FreeBelowIsSize` | sys/memory/phy_page.c:19-26 | the count used in every contract is the size of the set of free frames |
| `FreeFrames.FindFree` | sys/memory/phy_page.c:19-26 | the first free page entry; the end of the table exactly if there is none |
| `PageTables.WalkInTables` | sys/memory/phy_page.c:382-393 | a walk depends on table frames only |
| `PageTables.AttachTrees` | sys/thread/kthread.c:75-121 | a new table below an absent entry keeps the trees apart, and user code may read and write below every entry of them |
| `PageTables.LastEntryDecides` | sys/thread/kthread.c:75-121 | with the user and write bits of all four levels: what user code may do with a page is what the last entry says |
| `PageTables.WalkOfSteps` | sys/memory/phy_page.c:382-393 | the four tests of translate_cr3 are the walk through the tree |
| `PageTables.PageOfShifts` | sys/memory/phy_page.c:382-393 | the four indices are those the kernel takes with shifts by 39, 30, 21 and 12 bits |
| `PageTables.PageOfInjective` | sys/memory/phy_page.c:382-393 | within 48 bits the four indices identify a page, and nothing more |
| `AddressSpaces.TranslationIsFlat` | sys/memory/phy_page.c:382-393 | in every state translate_cr3 gives, for every user address, the frame of the page's m_map plus the offset, or 0 |
| `AddressSpaces.TranslationUpdated` | sys/thread/kthread.c:75-121 | adding or duplicating a page changes the translation of that page of that process, for every offset, and no other |
| `AddressSpaces.OneMapPerPage` | sys/thread/kthread.c:31-73 | one accessible m_map per page; its table entry is open to user code and points at its frame; a writable entry has exactly one use record |
| `AddressSpaces.FaultingPage` | sys/idt.c:980-1002 | a page is present exactly if it has an m_map; user code may read exactly the pages that are present, so there is no fault with error 5, and write to exactly those with a writable entry |
| `AddressSpaces.KernelTranslation` | sys/thread/kthread.c:195-217 | in every state every kernel address has the same translation in all processes |
| `AddressSpaces.KernelAddresses` | sys/thread/kthread.c:206-217 | in every process the kernel's text at 0xFFFFFFFFC0200000 is below the directory of its image, and its heap at 0xFFFFFFFF80400000 below the directory of the heap |
| `AddressSpaces.FramesConserved` | sys/memory/phy_page.c:156-213 | free frames and frames of live m_maps split the pool exactly, and the free ones are as many as the contracts count; the records of a used frame are its m_maps, once each |
| `AddressSpaces.NewNumber` | sys/thread/kthread.c:262 | the next process number belongs to no process and to no m_map |
| `AddressSteps.WritesAreIsolated` | sys/thread/kthread.c:684-703 | a user write through a writable entry changes that page of that process and no other view |
| `AddressSteps.PageWritesAreIsolated` | sys/thread/kthread.c:240-253 | new contents for the frame behind a writable entry change that page of that process, no other view, and no translation |
| `AddressSpaces.Kernel.constructor` | sys/memory/phy_page.c:19-26 | the state after boot is valid and has no process |
| `AddressSpaces.Kernel.FindFreePage` | sys/memory/phy_page.c:19-26 | the first free page entry, or none exists |
| `AddressSpaces.Kernel.AddNewMap` | sys/thread/kthread.c:31-51 | a new m_map on a zeroed frame with one record; every walk and view stays; it fails exactly if no frame is free |
| `AddressSpaces.Kernel.DupNewMap` | sys/thread/kthread.c:53-73 | one more record for the shared frame and one m_map for it |
| `AddressSpaces.Kernel.MakeTable` | sys/thread/kthread.c:84-110 | a new table below an absent entry keeps the invariant and every translation; it fails only if no frame is free |
| `AddressSpaces.Kernel.EnsurePath` | sys/thread/kthread.c:75-121 | afterwards all tables on the way to the page exist and no translation has changed; three free frames are enough |
| `AddressSpaces.Kernel.AddPage` | sys/thread/kthread.c:75-121 | the page is behind a new zeroed frame; every other page of every process translates and reads as before; four free frames are enough |
| `AddressSpaces.Kernel.ProtectPage` | sys/memory/phy_page.c:395-407 | set_pte_rw with 0 clears the write bit of that entry, changes no translation and no view |
| `AddressSpaces.Kernel.DupPage` | sys/thread/kthread.c:312-357 | the page shows the shared frame, not writable; every other page is as before; three free frames are enough |
| `AddressSpaces.Kernel.BuildSpace` | sys/thread/kthread.c:167-219 | a new PML4 is an empty user space, and in it as in every other space entry 510 is the direct map and entry 511 leads to the directory of the kernel's image at 511, to that of its heap at 510, and to nothing else; nobody else notices; two free frames are enough |
| `AddressSpaces.Kernel.MapStack` | sys/thread/kthread.c:123-165 | the kept rsp0 frame is mapped again with its contents; three free frames are enough |
| `AddressSpaces.Kernel.Spawn` | sys/thread/kthread.c:167-262 | the new process has a number that no process has had, its rsp0 stack and exactly the given pages, zeroed; every other process reads what it read; all processes see the kernel through the same directories; validity is kept; it fails only if the frames run out, and 6 frames and 4 for each page are enough |
| `AddressSpaces.Kernel.Fork` | sys/thread/kthread.c:359-427 | the child has a number that no process has had and reads in every page what the parent read, except its own rsp0 stack; every process reads what it read before; all processes see the kernel through the same directories; validity is kept; it fails only if the frames run out, and 6 frames and 3 for each m_map of the parent are enough |
| `AddressSpaces.Kernel.CopyOnWrite` | sys/thread/kthread.c:684-703 | the page gets a frame of its own with the same contents and is writable; no view changes; four free frames are enough |
| `AddressSpaces.Kernel.RwPageFault` | sys/thread/kthread.c:684-703 | handled exactly if the page is an accessible one of the process; no view changes; then it is writable; four free frames are enough |
| `AddressSpaces.Kernel.PageFault` | sys/idt.c:980-1002 | error 7 copies the page; otherwise an address from heap_start up to heap_break gets a page of the heap; of the others, exactly those up to 0xFFFFFEFFFFFFF000 and from rsp_current - 0x4000 on, in 64 bits, get a page of the stack; the rest is denied and changes nothing. Unless denied, user code may read and write the page; new pages are zero, nothing mapped changes its contents; four free frames are enough |
| `AddressSpaces.Kernel.Store` | sys/idt.c:980-1002 | a user store, with its write fault if there is one, changes one word of one page of one process: memory behaves as if nothing were shared; four free frames are enough |
| `AddressSpaces.Kernel.FreePage` | sys/memory/phy_page.c:181-213 | exactly that record goes; the page is free exactly when it was the last |
| `AddressSpaces.RemoveRecord` | sys/memory/phy_page.c:181-213 | unlinking one record keeps the order and number of the others |
| `AddressSpaces.Kernel.FreeMaps` | sys/thread/kthread.c:496-512 | every m_map but the kept stack gives its record back |
| `AddressSpaces.Kernel.Cleanup` | sys/thread/kthread.c:656-667 | no m_map of the process is left, in use or in its list; other processes keep their pages, m_maps and contents; validity is kept |
| `AddressSpaces.Kernel.Replace` | sys/thread/kthread.c:493-602 | exec: the same rsp0 stack, exactly the new pages, zeroed; other processes read what they read; all processes see the kernel through the same directories; validity is kept; it fails only if the frames run out, and 5 frames and 4 for each page are enough |
| `MemoryRuns.Perform` | sys/thread/kthread.c:167-703 | spawn, fork, exec, cleanup, a store and a fault each do to what the processes see what they do to separate memories; they fail only if no frame is free |
| `MemoryRuns.Run` | sys/thread/kthread.c:167-703 | the same over every run: sharing, copying on write and reuse of frames are never seen |
| `MemoryRuns.Family` | sys/thread/kthread.c:359-703 | a run from boot with two forks, a store and a cleanup, and what the two processes left then read |
| `MemoryRuns.StackGrowth` | sys/idt.c:988-991 | a run from boot: a process touches the page below its first stack page, stores a word there, and finds the word and zeros |
| `KernelBreak.PageMapped` | sys/memory/phy_page.c:302-326 | an entry in the last table is one more page at the end |
| `KernelBreak.TableMapped` | sys/memory/phy_page.c:302-326 | a new table with its first entry is one more page at the end |
| `KernelBreak.SearchEnds` | sys/memory/phy_page.c:328-357 | where the two searches stop is the number of mapped pages |
| `KernelBreak.KernelSpace.KbrkPage` | sys/memory/phy_page.c:328-357 | _kbrk returns the address after the mapped pages and maps one zeroed page there; it halts exactly for sizes above 4096 or more than 509*512 pages, and runs out of memory only if no frame is free |
| `KernelBreak.KernelSpace.Kbrk` | sys/memory/phy_page.c:359-380 | kbrk(n*4096) returns the old break and maps n zeroed pages in one contiguous range; old pages keep frame and contents; when it halts; 2*n free frames are enough |
| `Pipes.Append` | sys/disk/file_system.c:345-358 | a byte at the producer cursor joins the end of the queue |
| `Pipes.Drop` | sys/disk/file_system.c:317-327 | moving the consumer cursor drops bytes from the front |
| `Pipes.FetchIsFifo` | sys/disk/file_system.c:317-327 | a read is a FIFO read if and only if the producer cursor is not 0 or no more is asked for than is queued |
| `Pipes.PipeEnd.constructor` | sys/disk/file_system.c:291-308 | a new pipe is empty |
| `Pipes.PipeEnd.Write` | sys/disk/file_system.c:345-367 | the longest prefix that fits is appended; a write that fits as a whole, and no other, empties the waiter list and wakes all waiters |
| `Pipes.PipeEnd.Read` | sys/disk/file_system.c:317-327 | when -1 is returned; FIFO exactly under the condition above; bytes read so far and queued bytes together are the bytes written |
| `Pipes.PipeEnd.Wait` | sys/idt.c:325-342 | the process joins the waiters and is on hold |
| `Pipes.ReadPastTheEnd` | sys/disk/file_system.c:317-327 | after 2047 bytes in and out a read of one byte succeeds and 2047 stale bytes seem queued |
| `Pipes.LostWakeup` | sys/disk/file_system.c:345-367 | a reader stays on hold though the pipe is full, and later writes do not wake it |
| `Descriptors.SlotChanged` | sys/disk/file_system.c:410-418 | changing one descriptor and adjusting the two counts keeps every count right |
| `Descriptors.FileTable.NewPair` | sys/disk/file_system.c:291-310 | generate_entry_pair: both ends point at each other, the ring is empty and shared with no other pair |
| `Descriptors.FileTable.Pipe` | sys/idt.c:699-725 | two new entries, the ends of one empty pipe with a ring of its own, behind the two lowest free descriptors, the read end at the lower one, or an error exactly when fewer than two are free; counts stay right |
| `Descriptors.FileTable.Close` | sys/idt.c:746-758 | the descriptor is closed and its entry counted down once; counts stay right |
| `Descriptors.FileTable.Dup` | sys/idt.c:768-792 | what both descriptors are afterwards in every case; the code looks outside the table exactly if no number is above 16 and one is 16; counts stay right |
| `Descriptors.DupPastTheTable` | sys/idt.c:772-776 | a process for which duplicating onto descriptor 16 passes the test and leaves the table |
| `Descriptors.FileTable.Spawn` | sys/thread/kthread.c:273-285 | descriptors 0, 1 and 2 of a new process, counted |
| `Descriptors.FileTable.Fork` | sys/thread/kthread.c:440-449 | the child has the parent's descriptors and every count grows by their number; nothing is counted for closed ones |
| `Descriptors.FileTable.Exit` | sys/idt.c:377-383 | the process is terminated; its descriptors stay counted |
| `Descriptors.FileTable.Cleanup` | sys/thread/kthread.c:669-675 | every count falls by the number of descriptors of the process; nothing is counted for closed ones |
| `Descriptors.FileTable.Reap` | sys/idt.c:622-633 | a terminated process leaves the list, and with the first process all others leave too; the counts are unchanged: descriptors of processes not cleaned up are lost, exactly those |
| `Descriptors.LostDescriptors` | sys/idt.c:622-633 | a child waited for before its cleanup: two references too many stay on the terminal's output |
| `Descriptors.FileTable.Read` | sys/idt.c:305-352 | through a descriptor: errors exactly for closed, foreign or too large descriptors; end of file exactly if no live process has the write end of this pipe, no reference to it was lost, nothing is queued and the producer cursor is not 0; the bytes are the oldest ones in order exactly if the producer cursor is not 0 or no more is asked for than is queued; at the end of the file every byte written has been read, unless an earlier read ran past the end |
| `Descriptors.FileTable.Write` | sys/idt.c:356-376 | through a descriptor: errors exactly as for reading; otherwise the longest prefix that fits joins the ring of the pipe's read end |
| `Descriptors.PipeBetween` | sys/idt.c:699-725 | the first pipe of a new process is 3 and 4; from a child to its parent, what the child writes is what the parent reads, and when both have closed the write end the parent finds the end of the file |
| `Descriptors.BadDescriptors` | sys/idt.c:305-376 | reading and writing at descriptor 16 give -24, at a closed one below it -9 |
| `DiskQueue.Driver.FindSlot` | sys/ahci.c:265-281 | the first slot below 32 that is clear in both registers |
| `DiskQueue.Driver.Submit` | sys/ahci.c:258-333 | the command goes into a slot that was clear; no slot exactly if all are busy; if the port hangs, which is seen exactly when a slot is clear, the command is written into the slot and not issued |
| `DiskQueue.Driver.Request` | sys/disk/disk_driver.c:6-91 | the task joins the end of the queue with its own command, or waits for a slot exactly if all are busy; it is refused exactly if the port hangs and a slot is clear |
| `DiskQueue.Driver.Complete` | sys/ahci.c:496-510 | when the device finishes a command the invariant stays: every issued task's command is finished or in its slot |
| `DiskQueue.Driver.CheckTask` | sys/disk/disk_driver.c:93-118 | done only if the device has finished the task's own command, even if its slot was used again; only then is its process woken; a task without a command gets one exactly if its port has a clear slot; the kernel stops exactly if a late submission meets a hanging port |
| `DiskQueue.Driver.Poll` | sys/disk/disk_driver.c:120-132 | exactly tasks with finished commands leave, the others stay in order; exactly their processes, unless terminated, are woken; an issued task that stays has a busy slot or saw an error, and one without a command has a port whose slots are all busy; the kernel stops exactly if a port hangs and some waiting task could have been issued |
| `DiskQueue.Sector` | sys/ahci.c:258-264 | the sector in the command is the wanted one if and only if the block number is below 2^29 |
| `SimpleFs.SizeSet` | sys/disk/file_system.c:389-394 | writing the size into the attributes sets the low half and keeps the present bit |
| `SimpleFs.CreateStep` | sys/disk/file_system.c:119-157 | a new entry adds one empty file and changes no other |
| `SimpleFs.WriteStep` | sys/disk/file_system.c:368-399 | a block write with a size update changes one file and no other |
| `SimpleFs.WriteInContents` | sys/disk/file_system.c:368-399 | the effect of a write on the contents, if it starts at or before their end |
| `SimpleFs.WriteAppendsIff` | sys/disk/file_system.c:368-399 | a write appends if and only if it starts at the end of the contents, or writes nothing before it |
| `SimpleFs.Disk.Search` | sys/disk/file_system.c:68-97 | found exactly if there is a file of that name |
| `SimpleFs.Disk.Create` | sys/disk/file_system.c:119-157 | the files gain an empty one in a block of its own; all other list entries stay, so that open files stay open; the superblock on disk equals the frontier in memory; the kernel halts exactly if the list is full |
| `SimpleFs.Disk.Open` | sys/disk/file_system.c:229-289 | succeeds exactly for existing files, with the file's size and the offset at its start or end |
| `SimpleFs.Disk.Write` | sys/disk/file_system.c:368-399 | the file's contents are the old block with the bytes spliced in, cut at the block's end; all other files and their list entries are unchanged, so that other open files stay open; the offset stays |
| `SimpleFs.Disk.SecondWrite` | sys/disk/file_system.c:368-399 | of two one-byte writes through one open file only the second is left |
| `SimpleFs.Disk.TwoWriters` | sys/disk/file_system.c:368-399 | two files open at once: each write goes to its own file |
| `SimpleFs.Disk.CreateBeside` | sys/disk/file_system.c:119-157 | a file opened before another is created can be written afterwards |
| `SimpleFs.Disk.Read` | sys/disk/file_system.c:328-336 | the read is right (the contents from the offset on, -1 at the end or for no bytes) if and only if the offset is not beyond the end or nothing is asked for; how far the offset moves, also when the copy leaves the block; when it leaves the block |
| `SimpleFs.LeftWraps` | sys/disk/file_system.c:328-336 | the bytes left are size minus offset in 64 bits, also beyond the end |
| `SimpleFs.Disk.Seek` | sys/idt.c:680-694 | the offset is any number afterwards |
| `SimpleFs.Disk.StaleRead` | sys/disk/file_system.c:328-336 | one byte beyond the end of a file a read succeeds |
| `SimpleFs.Disk.ReadAll` | sys/idt.c:244-262 | a fresh read open, read to its end in pieces of any size, gives exactly the contents |
| `Paths.JoinSplit` | sys/disk/file_system.c:428-457 | a path is its components with slashes between |
| `Paths.SplitJoin` | sys/disk/file_system.c:428-457 | joining components and splitting the text gives the components back |
| `Paths.StrCollapse` | sys/disk/file_system.c:420-426 | the text from the second position up to its terminator is moved to the first, in place, and nothing else changes |
| `Paths.ShortenPath` | sys/disk/file_system.c:428-457 | for every absolute path: terminates although its index moves backwards, and leaves in the buffer the text that the loop gives on strings; when it reads on behind the end |
| `Paths.ShortenIsRun` | sys/disk/file_system.c:428-457 | on paths without names that end in a dot and without ".." above the root followed by "." or "..", the loop on characters is a run over the components |
| `Paths.ShortenUnderstood` | sys/disk/file_system.c:428-457 | for these paths: the kernel reads past the end if and only if the path ends on a "." that is looked at or a ".." above the root; otherwise the text means the path if and only if the condition below holds, for paths that stay below the root, and also for those that do not if it holds; without empty components it is the resolved path to the letter |
| `Paths.ShortenResolvesIff` | sys/disk/file_system.c:428-457 | the names that the run leaves are component-stack resolution if and only if no two "." follow each other and no ".." goes back over an empty component |
| `Paths.RunIsExact` | sys/disk/file_system.c:428-457 | without dot pairs and empty components the run is the resolved stack, with a trailing slash exactly behind a last ".." |
| `Paths.DotPairExample` | sys/disk/file_system.c:431-438 | behind a name, "././y" keeps a "." |
| `Paths.EmptyPopExample` | sys/disk/file_system.c:441-453 | behind a name x, a doubled slash and "../y" leave x and y, where resolution leaves y |
| `Paths.DotEndedExample` | sys/disk/file_system.c:432-438 | "/x./y" becomes "/xy" for all dotless x and y, which does not mean the same |
| `Paths.StrayExample` | sys/disk/file_system.c:441-448 | "/../../y" becomes "/.y" for all dotless y, which does not mean the same |
| `Paths.CalculatePath` | sys/disk/file_system.c:459-484 | for every base and relative path: base followed by rel, or rel alone if absolute, shortened; the result means that path exactly under the conditions above |
| `Scheduler.Table.Cleanup` | sys/thread/kthread.c:649-682 | the process is cleaned; its parent is no longer on hold if it waits for this process or for any, and no other process changes |
| `Scheduler.Table.Schedule` | sys/thread/kthread.c:708-751 | ends within one lap; stops at the first process that can run; cleans exactly the terminated ones it passes, none twice over the whole run; wakes exactly their parents that wait for them or for any; when it halts |
| `Scheduler.ParentWoken` | sys/thread/kthread.c:649-654 | a parent that waits for a terminated child, or for any, can run once the search has passed the child |
| `Scheduler.WaitForAny` | sys/thread/kthread.c:649-654 | a process that waits for -1 and has one child, which has terminated: the next call cleans the child and goes on with the process |
| `Scheduler.Nearer` | sys/thread/kthread.c:708-751 | every call brings the turn of a runnable process nearer or is its turn |
| `Scheduler.Fairness` | sys/thread/kthread.c:708-751 | a process that stays runnable is chosen within as many calls as there are processes, whatever the other flags do |
| `ExecStack.WordsSet` | sys/idt.c:526-535 | a 64-bit store changes one word of the buffer |
| `ExecStack.Place` | sys/idt.c:527-545 | a string loop writes all strings with terminators and all their places |
| `ExecStack.Build` | sys/idt.c:508-546 | the builder stays within size_need, with eight bytes to spare, and lays out argc, argv, NULL, envp, NULL, strings |
| `ExecStack.Relocate` | sys/idt.c:585-595 | both loops stop at their NULL and add rsp to every pointer, and to nothing else |
| `ExecStack.ReaderInvertsBuilder` | crt/crt1.c:12-16 | from that layout crt1 recovers argc, argv and envp exactly |
| `ExecStack.Exec` | sys/idt.c:508-595 | the whole round trip for every argv and envp |
| `Bytes.LeRoundTrip` | sys/elf64.c:20-38 | reading back a little-endian number |
| `Bytes.FromLeDigits` | sys/elf64.c:24-39 | the byte at offset k of a number in memory is its byte of place k: the low byte comes first |
| `Bytes.DigitByWeight` | sys/elf64.c:24-39 | the byte of place k is the number divided by 256^k, modulo 256 |
| `Tarfs.ReadOct` | sys/tarfs.c:9-19 | the sum over 32-bit shifted digits; for an octal number it is the value if and only if the value is below 2^31 |
| `Tarfs.OctExact` | sys/tarfs.c:9-19 | the shifted sum never exceeds the octal value, and equals it exactly below 2^31 |
| `Tarfs.OctOverflows` | sys/tarfs.c:16 | a 2 as eleventh digit from the right stands for 2^31 and comes out as its negative |
| `Tarfs.Find` | sys/tarfs.c:85-133 | the header loop finds the first file of that name in any well-formed archive, with its contents |
| `Tarfs.Read` | sys/tarfs.c:85-101 | the requested part of the file's contents, cut at its end; -1 if there is none |
| `Loader.SectionRead` | sys/elf64.c:24-39 | decoding a program header gives back the section it was written from |
| `Loader.ReadElf` | sys/elf64.c:10-42 | for every ELF file in the archive the list of its program headers, in order; NULL exactly if the file is missing, short, has another signature, no program header, or one that is cut off |
| `Loader.ChunkInImage` | sys/thread/kthread.c:234-243 | a new page with the next bytes of the section extends the section's image by them, at every address |
| `Loader.ByteInImage` | sys/thread/kthread.c:244-251 | a zero byte in the page of the byte before it extends the image by that byte |
| `Loader.InsideSection` | sys/thread/kthread.c:224-254 | with page-disjoint sections every byte of every section is in the image of all of them |
| `Loader.OutsideSections` | sys/thread/kthread.c:224-254 | outside the pages of the sections the image is what was there before |
| `PageBytes.CellRoundTrip` | sys/thread/kthread.c:240-251 | a 64-bit number stored into the fields of a table word is read back |
| `PageBytes.EntryValues` | sys/thread/kthread.c:112-119 | as numbers, entries for user code are the frame's address plus 7, without write permission plus 5, and the kernel's plus 3 |
| `PageBytes.SetPageByteIsLocal` | sys/thread/kthread.c:244-251 | a byte stored into a page changes that byte and no other of its 4096 |
| `PageBytes.PutPageBytes` | sys/thread/kthread.c:240-243 | the copy into a page: the bytes are there, all others stay |
| `Programs.LoadSection` | sys/thread/kthread.c:225-253 | both inner loops: a write through a NULL page if and only if the section has no bytes in the file, some in memory, and does not start on a page boundary; otherwise what the tables show grows by exactly the image of the section; nobody else notices; frames are taken by the page only |
| `Programs.HeapStart` | sys/thread/kthread.c:224-255 | the heap starts page-aligned, exactly three whole pages above the end of the highest section |
| `Programs.AllInPlace` | sys/thread/kthread.c:224-254 | if the tables show the image of all sections then each byte of each section reads as the file's byte or, behind those, as zero, and all other addresses as the stack or nothing |
| `Programs.SpawnProgram` | sys/thread/kthread.c:167-262 | for every ELF program in the archive: read through the new page tables, every section is in memory as the file's bytes and then zeros, the stack pages are zero, nothing else is mapped; every other process reads what it read; validity is kept; it fails only if the frames run out (10 frames and 4 for each page are enough) or at a NULL write, which happens only if some section is of that kind, and success only if none is |
| `Execs.WholeByPages` | sys/idt.c:575-582 | the sections that exec can write are those without zero bytes, and those whose last byte is in the page of their last byte in the file |
| `Execs.ReplaceProcess` | sys/thread/kthread.c:493-584 | the process has its old rsp0 stack, zeroed stack pages from the top down, and blank writable pages for the bytes of the sections in the file; nobody else notices |
| `Execs.WantOver` | sys/idt.c:566-574 | the next bytes of a section, written through the process's own addresses over blank pages, extend the image of the section |
| `Execs.ExecProgram` | sys/idt.c:548-585 | for every ELF program in the archive: with enough frames, exec comes to its end if and only if every section is of the kind above; then the process reads every section as the file's bytes and zeros, its stacks, and nothing else; every other process reads what it read; validity is kept |

## Left out

- sys/timer.c, the keyboard, the terminal, kprintf, libc wrappers and user programs: plumbing without deep state.
- Assembly entry, context switch, TLB and control registers, port bring-up and DMA: hardware.
- phy_page_init and kernel_page_table_init: boot-time constants; a page-entry table with distinct frames is given.
- libc/malloc.c and bin/sbush: the first repeats the kernel heap, the second adds only buffer limits.
- Listing directories (next_tarfs_file, directory_compare, list_next_file) and the copy of read_elf for open files: like the members modelled, and easier.
- sys_wait's choice of a process, and its removal after a sleep: only the removal of a process that has already terminated is modelled.
- Failed disk transfers in simple_fs, overlapping calls, and two writers of one file.
- KernelHeap.Heap.Malloc: requests above INT_SAFE bytes that the size test accepts, because the `int` arithmetic overflows there.
- KernelHeap.Heap.Free: pointers that are neither live nor rejected by the range and alignment tests; what the kernel then reads is arbitrary memory.
- AddressSpaces.Kernel.PageFault: faults raised in kernel mode.
- SimpleFs.Disk.Create: a disk without a free block and names of 112 bytes and more, which the kernel does not check for.
- DiskQueue.Driver.Submit: the layout of command headers and tables.
- Tarfs.Find: archives with files of 2^31 bytes and more, whose sizes `read_oct` gets wrong.
- AddressSpaces.Kernel.Spawn: the wrap of `id_count` after 2^32 processes.
- Paths.ShortenUnderstood: paths with other names that end in a dot, and paths in which a ".." above the root is followed by "." or "..": there the loop on strings is the only description, with `Paths.DotEndedExample` and `Paths.StrayExample`.
- Programs.SpawnProgram: sections cut off by the end of the file (the kernel hangs), sections that share a page or reach the stack, and the register frames at the top of the rsp0 stack.
- Execs.ExecProgram: scripts, the copy of the initial stack (which `ExecStack` models on its own), and where a write to a page that is not mapped leads.
