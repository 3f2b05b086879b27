# mitosOS, verified

A Dafny model of the parts of the mitosOS kernel that carry a process from physical frames to a
running address space, with the proofs of what those parts keep. Everything is checked by
`dafny verify dfyconfig.toml` (Dafny 4.11).

## What is modelled

Code that updates things in place is modelled by classes and methods with loops, each proved
against a function or a relation on values; the theorems are about those.

- **Physical frames** (`Pmm.dfy`). The bitmap of 64-bit words refines a set of free frames; what is in it
  after boot is stated in the bytes of the memory map.
- **Page tables** (`PageTables.dfy`, `Worlds.dfy`, `Vmm.dfy`). Physical memory maps frames to 512
  entries or to 4096 bytes. A ghost tag on each table frame (space, level, prefix, parent) states
  that the tables form one tree per address space, process trees sharing subtrees of the kernel's.
  On such trees the four-level walk is a flat map from page numbers to leaves, and every operation
  is an operation on that map. What user code may do with a page is decided by all four entries of its
  path on x86_64, and by the leaf on AArch64.
- **Address spaces** (`Spaces.dfy`, `UserMemory.dfy`, `Teardown.dfy`, `Processes.dfy`,
  `KernelRoot.dfy`, `SlotZero.dfy`, `Lifetime.dfy`, `LoadRuns.dfy`, `Elf.dfy`, `ElfFiles.dfy`). Who owns
  which data frame, demand paging at any address, user range checks, unmapping, the boot-time kernel root,
  cloning, the half under root slot 0 that all spaces share, ELF loading, finished or not, which files
  load and with how many frames, and teardown.
- **Tasks** (`Scheduler.dfy`, `SchedulerRuns.dfy`, `Spawning.dfy`). The slot table as a state machine and
  its runs, and the spawning of a process from a file.
- **The kernel** (`Kernel.dfy`, `KernelCalls.dfy`). Scheduler, memory and frame allocator as one state
  machine over every interleaving of creation, page mapping, copying, user stores, unmapping,
  scheduling, exits and messages: one invariant, isolation of address spaces, conservation of
  frames. The methods of the other modules are shown to drive this machine, call by call.
- **The heap** (`Heap.dfy`, `HeapAlignment.dfy`). Size-class lists threaded through the bytes of freed
  blocks, and the alignment of what is handed out.
- **The input ring** (`InputRing.dfy`). A producer and a consumer, one load or store at a time.
- **Storage and tables** (`Fat32.dfy`, `Ahci.dfy`, `Madt.dfy`, `Ustar.dfy`), with `Basics.dfy` for
  bytes and little-endian fields.

## Where the code does less than it seems to

Each of these is stated as an exact condition, or as a failing input together with the condition
under which the code is right.

- `create_process_page_table` copies all 512 root slots on x86_64, although teardown takes slots
  1..511 to be private. Teardown spares the kernel's tables if and only if no such slot is shared
  (`Teardown.TeardownSparesKernel`), so creating a process and tearing it down does if and only if the
  root copied uses slot 0 only (`Processes.CloneSparesIff`). The AArch64 kernel root uses slot 0 only
  (`KernelRoot.InitKernelRoot`), and the lifetime and whole-kernel theorems are for such roots.
- The page-fault handler checks no address. A page it maps in the kernel's half (an address that, cut
  to 48 bits, is below 2^39, such as 0x200_0000 just above the identity map) lands in the tables all
  spaces share: it appears in every address space and its frame is never given back
  (`Kernel.ReachesAll`). A mapping leaves the other spaces alone if and only if it is outside that
  half (`Kernel.FillIsolatesIff`, `Lifetime.FaultPrivateIff`). It keeps the memory invariant if and
  only if a page in that half is not for user code and the kernel's own root gets no page outside it
  (`Kernel.FillKeepsIff`); after one that does get it, tearing down any new process frees tables of the
  kernel (`Kernel.KernelFillSparesIff`). The whole-kernel theorems are for runs of mappings that keep
  the invariant; faults of kernel code in the kernel's half are among them.
- The loader compares segment addresses with 2^39 but not with 2^48. A segment at 0x1_0000_0300_0000 is
  let through and its page, cut to 48 bits, is one of the kernel's half (`Kernel.HarmfulInputs`). A
  load leaves every other space alone if and only if no page of a segment is in that half
  (`Kernel.LoadIsolatesIff`).
- `map_page` raises the user bit of the table entries it passes, but not the write bit, and leaves a
  no-execute bit. On x86_64 a user page mapped below a read-only or no-execute table entry has less than
  its own flags say; the rights it gets are exactly those its flags and the tables already there allow
  (`Vmm.MappedRights`). In the states the whole-kernel machine reaches no table restricts anything, and
  a page's rights are its leaf's (`Kernel.AccessIsLeaf`).
- A data frame whose mapping fails is neither mapped nor given back. The lifetime and whole-kernel
  theorems account for these frames, and for those mapped into the kernel's half, one by one (`lost`).
- When loading a file, allocating its stack or finding a task slot fails, `spawn_from_elf`
  (src/task.rs:546-562) returns without freeing the root or anything mapped under it. For a file outside
  the kernel's half, every frame taken has an owner afterwards if and only if the call succeeds or no
  root could be allocated (`Spawning.SpawnFromElf`, in general `Spawning.LeakIff`); a root left without an
  owner stays allocated for ever (`Kernel.AbandonedStays`).
- A process root is lost when no task slot is free (`SchedulerRuns.SpawnKeepsRootIff`).
- A thread spawned by a task that owns its root keeps using the root after it is freed
  (`SchedulerRuns.SharingAnOwnedRootFails`, from every state in `SchedulerRuns.SharingAlwaysFails`,
  exact condition in `SchedulerRuns.SpawnSafeIff`).
- The stack pointer is recorded only for a Running task, so a task that blocked itself resumes at an
  older one (`SchedulerRuns.SavedIffRunning`), as every task does that receives from an empty mailbox
  (`SchedulerRuns.BlockingLosesPointer`); a zero stack pointer leaves two tasks Running
  (`SchedulerRuns.ZeroStackPointer`).
- A new task inherits the mailbox of its slot (`SchedulerRuns.SpawnKeepsMailbox`), so that it can receive
  a message sent to a dead one (`SchedulerRuns.DeadLetter`). A task gets exactly the messages accepted
  since it was spawned if and only if that mailbox was empty (`SchedulerRuns.OccupantMailIff`).
- A heap block of more than 2048 bytes, or aligned to more, is not taken back when it is freed
  (`Heap.LargeNotReused`).
- Two request sizes in one heap bucket make live blocks overlap, because the bump path carves the
  requested size and not the bucket's (`Heap.MixedSizesOverlap`).
- A reused block keeps the alignment it was carved with. Whenever two alignments share a bucket, one a
  proper multiple of the other, a run hands out a misaligned block (`HeapAlignment.MixedAlignments`);
  when requests of a bucket agree on alignment, no run does (`HeapAlignment.AlignedRun`). Alignment is
  that of the physical address; the pointer handed out has it if and only if the offset of the direct
  map has (`HeapAlignment.AlignedAbove`).
- `free_frame` frees whatever it is given. The protected frames stay out of the pool if and only if none
  of them is given back (`Pmm.GiveKeepsIff`).
- Base and length of a memory region are rounded down apart. A frame taken for a region leaves it if and
  only if it is the first one of a region of a page or more whose base is not aligned, and the frame after
  the last is left out if and only if the two remainders make up a page (`Pmm.EntryInBytes`); what the
  regions give lies inside them if and only if those first frames do (`Pmm.GivenInsideIff`).
- A boot range that ends within a page of 2^64 is not protected, because rounding its end up wraps
  (`Pmm.CoveringIff`).
- The page range of a segment that ends within a page of 2^64 wraps to nothing
  (`Elf.SegmentEndCovers`); a wrapping file offset passes the bounds check and panics
  (`Elf.RefusalIff`).
- A FAT volume with zero sectors per cluster can make the read loop for ever, on a cycle of any length.
  The loop ends if and only if clusters have sectors, or nothing is to be read, or the chain reaches
  an end mark or an unreadable entry (`Fat32.ReadEndsIff`, `Fat32.CycleNeverEnds`).
- Sector addresses reach the device modulo 2^48 and sector counts modulo 2^16 (`Ahci.PackedLba`,
  `Ahci.PackedCount`).
- An archive that holds only its end marker is not accepted as a ramdisk (`Ustar.OpensIffNonempty`).

## Conventions

- Arithmetic is that of the release profile: 64-bit sums wrap where the code does not check them.
- Walks look at address bits 12..47, so addresses that agree on them are the same page.
- Files and tables are shorter than 2^63 bytes, as slices are.
- Page-table entries are a frame number and four permissions; trees hold no huge leaves.
- The memory map, the stack frames, fresh roots, device failures and translations are inputs. Critical
  sections are single steps. The active root register is one variable.

## Model

| member | source | states |
|---|---|---|
| `Pmm.FirstClear` | src/memory.rs:229-230 | The lowest clear bit of a word: all bits below are set, and it is clear unless the word is full. |
| `Pmm.BitmapAllocator.AllocateNextFrame` | src/memory.rs:226-235 | Returns the least free frame and removes exactly it; fails if and only if no frame is free. |
| `Pmm.BitmapAllocator.ReserveFrame` | src/memory.rs:237-241 | The free set loses exactly this frame, in or out of range. |
| `Pmm.BitmapAllocator.FreeFrame` | src/memory.rs:243-250 | The free set gains exactly this frame, except frame 0 and frames beyond the bitmap. |
| `Pmm.BitmapAllocator.ReserveRange` | src/memory.rs:252-254 | The free set loses exactly the frames of the range. |
| `Pmm.BitmapAllocator.FreeRange` | src/memory.rs:256-258 | The free set gains exactly the frames of the range that exist and are not frame 0. |
| `Pmm.FreeRegions` | src/memory.rs:283-294 | The free set gains exactly the existing frames of the regions of the chosen types. |
| `Pmm.EntryInBytes` | src/memory.rs:289-293 | A frame taken for a region is not inside it if and only if it is the first of a region of a page or more with an unaligned base; a frame inside that is left out is the one after the last, when the remainders make up a page. |
| `Pmm.EntryExactIff` | src/memory.rs:289-293 | The frames taken are those with all 4096 bytes in the region if and only if its base is aligned or it is shorter than a page. |
| `Pmm.RegionsInBytes` | src/memory.rs:283-294 | With aligned bases, the frames of the chosen regions are those with all 4096 bytes in one of them. |
| `Pmm.GivenInsideIff` | src/memory.rs:283-294 | For any regions, the frames they give in a range all lie inside one of them if and only if the first frame of every region with an unaligned base does. |
| `Pmm.InitFromMemoryMap` | src/memory.rs:279-298 | After initialisation the free frames are the old ones and those of usable regions, without the low megabyte. In bytes, from an all-reserved pool and regions with aligned bases: a frame is free if and only if it is at or above 256, below the capacity, and all its 4096 bytes lie in one usable region. |
| `Pmm.InitStatic` | src/memory.rs:319-322 | After static initialisation every frame but frame 0 is free. |
| `Pmm.ReclaimBootMemory` | src/memory.rs:327-347 | Reclaiming adds exactly the frames of the reclaimable regions; in bytes, for regions with aligned bases, those whose 4096 bytes all lie in one, from frame 256 on. |
| `Pmm.ProtectedCoversBytes` | src/memory.rs:351-380 | When no range ends within a page of 2^64, every byte of the low megabyte, kernel, heap and ramdisk lies in a protected frame: rounding outward leaves none out. |
| `Pmm.ProtectedIsTight` | src/memory.rs:351-380 | For nonempty ranges every protected frame holds a byte of one of them. |
| `Pmm.ProtectedIff` | src/memory.rs:351-380 | For nonempty ranges whose ends do not wrap, a frame is protected if and only if one of its 4096 bytes must be kept. |
| `Pmm.CoveringIff` | src/memory.rs:351-380 | A nonempty range has all its bytes in its frames if and only if rounding its end up does not wrap. |
| `Pmm.ProtectBootMemory` | src/memory.rs:351-380 | Exactly the protected frames leave the free set, range ends computed in wrapping 64-bit arithmetic. |
| `Pmm.RunKeepsProtected` | src/memory.rs:264-270 | In every run of allocations, frees of any unprotected frames and reclaims disjoint from the protected ranges, no allocation returns a protected frame or one already held. |
| `Pmm.GiveKeepsIff` | src/memory.rs:243-250 | Giving back a frame of the bitmap keeps the protected frames out of the pool if and only if it is not one of them. |
| `Pmm.BootPool` | src/memory.rs:279-380 | After boot, from the memory map or for the whole tracked range, the free frames are exactly the tracked ones that are not protected. In bytes, for aligned region bases and nonempty ranges whose ends do not wrap: a frame is free if and only if it lies in a usable region, or among the 65536 tracked ones, and none of its bytes is one of the low megabyte, kernel, heap or ramdisk. |
| `Pmm.Serve` | src/memory.rs:243-270 | Any list of calls on the bitmap that gives back no protected frame, held or not, is a run of the pool, one step for each call; the frames returned are those the run hands out, and none is protected. |
| `Pmm.BootAndServe` | src/memory.rs:279-380 | From the boot pool, through any calls before and after reclaiming, each of them a step of the run: no frame handed out holds a byte of the low megabyte, kernel, heap or ramdisk, and none is held already. |
| `PageTables.IndexIsShiftAndMask` | src/vmm.rs:86-89 | The digits of a page number in base 512 are the four shift-and-mask indices of the address. |
| `PageTables.WalkUnfolds` | src/vmm.rs:182-224 | The recursive path to the leaf table is the three-step descent the code spells out. |
| `PageTables.PathTag` | src/vmm.rs:74-132 | On a well-formed tree the table reached at each level carries that level and prefix, and belongs to the root walked or to the kernel's. |
| `PageTables.SetLeafWalk` | src/vmm.rs:96-100 | Writing one leaf changes the walk of exactly the pages that pass through that slot. |
| `PageTables.SetLeafTree` | src/vmm.rs:96-100 | Writing a leaf keeps every tree well formed. |
| `PageTables.LinkTree` | src/vmm.rs:112-125 | Linking an empty fresh table into an empty slot keeps every tree well formed. |
| `PageTables.LinkWalk` | src/vmm.rs:112-125 | Linking an empty table changes no walk of any address space. |
| `PageTables.GrantUser` | src/vmm.rs:126-129 | Setting the user bit of a table entry changes no walk and keeps every tree. |
| `Worlds.LinkGrows` | src/vmm.rs:108-132 | A linked table only grows the world: taken from the free frames, empty, in the right space, invisible to every walk. |
| `Vmm.LeafForFrame` | src/vmm.rs:44-57 | A leaf made for a frame leads back to that frame when it fits the address field. |
| `Vmm.Machine.AllocFrame` | src/memory.rs:264-266 | Takes one frame from the pool and changes nothing else; fails if and only if the pool is empty. |
| `Vmm.Machine.NextTable` | src/vmm.rs:108-132 | Follows a link or links one fresh empty table; fails, changing nothing, if and only if the slot is empty and no frame is free. |
| `Vmm.Machine.PathTo` | src/vmm.rs:86-94 | Builds the missing tables of a path and nothing visible; fails only when the page is unmapped and the path lacks more tables than there are free frames. |
| `Vmm.MapRefines` | src/vmm.rs:74-106 | A built path with its leaf written is the flat map with one key added; every other address space is untouched. |
| `Vmm.Machine.MapPage` | src/vmm.rs:74-106 | The result is decided by alignment, by the page being mapped and by the frames the path needs, of which success takes exactly those; success adds exactly one key to the flat map, every failure changes no translation; well-formedness, other spaces and other root slots are kept. Table entries off the path stay; on it, new ones restrict nothing and old ones keep their flags but for the user bit. User code then has exactly the access that the flags and, on x86_64, the tables already there allow. |
| `Vmm.PathGranted` | src/vmm.rs:117-129 | On x86_64, after a page was mapped for user code every table entry of its path is present and user-accessible, whether it was there or is new; a new one is also writable and executable, an old one otherwise as it was. |
| `Vmm.MappedRights` | src/vmm.rs:96-129 | User code may read, write or execute the new page if and only if its flags say so and, on x86_64, no table entry that was on its path forbids it. |
| `Vmm.OpenRights` | src/vmm.rs:117-129 | Where no table entry restricts anything, the conjunction of the four entries of a path permits exactly what the leaf permits. |
| `Vmm.PathAfter` | src/vmm.rs:108-132 | Building one path changes no table of another; a table that appears on another path is new and shares the prefix. |
| `Vmm.LeafAddress` | src/vmm.rs:44-57 | A leaf keeps all flags and the bits of an aligned address from 12 up to 51 on x86_64, 47 on AArch64. |
| `Vmm.Machine.UnmapPage` | src/vmm.rs:135-179 | Succeeds if and only if the page is aligned and mapped; removes exactly one key of the flat map and keeps every other space and every tree. |
| `Vmm.Machine.TranslateAddr` | src/vmm.rs:182-224 | The loop-free descent computes the leaf's frame plus the page offset, or nothing. |
| `Spaces.OwnedMap` | src/vmm.rs:96-100 | Mapping an unrecorded frame and recording it keeps data-frame ownership one-to-one with private leaves. |
| `Spaces.OwnedUnmap` | src/vmm.rs:170-176 | Clearing a private leaf and dropping its record keeps ownership one-to-one. |
| `Spaces.MapZeroed` | src/elf.rs:183-194 | Taking, zeroing and mapping a frame: the exact outcome, the new zero page, how many frames it took, untouched other spaces and contents, exactly which frame is lost when mapping fails, and the access user code gets. |
| `Spaces.WriteFrame` | src/elf.rs:212-217 | Overwriting a data frame changes no tree, no walk and no ownership. |
| `UserMemory.HandlePageFault` | src/vmm.rs:464-529 | A fault on a present page changes nothing and is refused; any other, at any address, is handled if and only if a page gets mapped at the faulting page of the space it is served through: the active one, or the upper-half one on AArch64 for addresses whose top 16 bits are set. The page is zero, writable and executable, and for user code if and only if the fault was. |
| `UserMemory.PageIsUserAccessible` | src/vmm.rs:631-645 | True exactly when the walk ends in a present user leaf, writable if asked. |
| `UserMemory.ValidateUserRange` | src/vmm.rs:665-688 | For a nonzero length, true if and only if the range does not overflow, starts at or above 2^39 and every byte of it walks to a suitable user leaf; each accepted byte translates. |
| `UserMemory.ValidateUserPtr` | src/syscall.rs:55-61 | Kernel callers pass; user callers pass if and only if their range is empty or accessible. |
| `UserMemory.UnmapUserPage` | src/syscall.rs:164-168 | A user leaf leads to a frame recorded for that process alone, which can be given back. |
| `UserMemory.SysMunmap` | src/syscall.rs:149-173 | Returns 0 exactly for aligned nonempty accessible ranges of user callers, else 2^64 - 1; then every page of the range is gone, exactly their frames are free again, and nothing else changed; otherwise nothing changed at all. |
| `Teardown.FreeProcessPageTable` | src/vmm.rs:564-610 | The four nested loops free the post-order of the subtrees under slots 1..511, then the root, and leave memory as it is. |
| `Teardown.UniqueNode` | src/vmm.rs:564-610 | A position in an address space has at most one frame. |
| `Teardown.OrderSound` | src/vmm.rs:564-610 | Everything freed under a table is a frame of its space below that table, freed once. |
| `Teardown.OrderComplete` | src/vmm.rs:564-610 | Every frame of the space below a table is freed. |
| `Teardown.TeardownExact` | src/vmm.rs:549-610 | With private slots 1..511, teardown frees each table and page of the process exactly once and no other frame. |
| `Teardown.TeardownSparesKernel` | src/vmm.rs:549-610 | No kernel table becomes free if and only if no slot 1..511 is shared with the kernel. |
| `Processes.CopyTable` | src/memory.rs:449-465 | Copying entry by entry makes the new frame equal to the source table. |
| `Processes.CloneWalks` | src/memory.rs:446-484 | The clone translates every address as its source does, and no other space changes. |
| `Processes.CreateProcessPageTable` | src/memory.rs:446-484 | Fails if and only if no frame is free; else the new root holds the 512 entries of the active root on x86_64 and of the kernel's on AArch64, and memory stays well formed. |
| `Processes.CloneSparesIff` | src/memory.rs:446-484 | Creating a process from a root and tearing it down leaves every kernel table allocated if and only if that root uses slot 0 only. |
| `Processes.ReapProcess` | src/task.rs:698-710 | Teardown frees every frame of the process once, none that was free, keeps all other spaces and their pages, and conserves the frames accounted for. |
| `SlotZero.LowAddresses` | src/vmm.rs:86-89 | The pages under root slot 0 are those whose address, cut to 48 bits, is below 2^39: aliases from 2^48 on included. |
| `SlotZero.SlotsPrivate` | src/vmm.rs:546-551 | Under a kernel root that uses slot 0 only, no process shares any other slot with it. |
| `SlotZero.UserPathSpace` | src/vmm.rs:546-551 | Pages outside slot 0 are served by tables of the process itself. |
| `SlotZero.SlotZeroSame` | src/memory.rs:446-484 | Pages under slot 0 translate in every process as in the kernel. |
| `SlotZero.LeafIsWalk` | src/vmm.rs:182-224 | Every slot of a leaf table is the translation of some page of its space. |
| `SlotZero.LowPageReachesAll` | src/vmm.rs:464-529 | A page mapped under slot 0 through any root appears in every address space. |
| `SlotZero.LowSupervisorIff` | src/vmm.rs:464-529 | Mapping under slot 0 keeps user code out of the kernel's half if and only if it fails or the page is not for user code. |
| `Lifetime.ProcessStep` | src/vmm.rs:464-529 | A fault of kernel code at any address, a fault of user code outside the kernel's half or any unmap does what the handler and the call state and keeps the whole lifetime invariant; a frame is lost only by a fault that fails or is in the kernel's half. |
| `Lifetime.FaultPrivateIff` | src/vmm.rs:464-529 | A handled fault leaves all earlier translations alone if and only if it is outside the kernel's half, and keeps the lifetime invariant if and only if it is not a user fault inside it. |
| `Lifetime.ProcessLifetime` | src/vmm.rs:549-610 | Create, any sequence of such operations, tear down. The life is the clone followed by what each operation does, and what is freed at its end is exactly the space it ended with. Page records and the kernel's tables are those of before, the free set is that of before less the lost frames and the tables the kernel's half gained, each frame is freed once, and the user half of every other space translates as before. Without faults in the kernel's half no table was gained and every page of every space translates as before. |
| `KernelRoot.IdentityMapPage` | src/mmu.rs:72-80 | Adds at most that page to the kernel's map, identity and supervisor-only, and keeps the other root slots empty. |
| `KernelRoot.IdentityMapRange` | src/mmu.rs:72-80 | Adds exactly the pages of the range as long as frames last. |
| `KernelRoot.InitKernelRoot` | src/mmu.rs:106-128 | The boot-time root is not frame 0, maps to themselves, for the kernel only, pages of the five ranges, all of them if three frames stay free, and uses slot 0 only; all of it is writable, memory is executable, devices are neither executable nor cached. With four frames to begin with slot 0 is in use. Free frames and tables are together the frames there were. |
| `KernelRoot.KernelPagesAre` | src/mmu.rs:106-128 | The pages of the five ranges are those of the bytes below 0x200_0000, at 0x4000_0000, 0x3F20_0000 and 0x3F20_1000, and from 0xFD00_0000 to 0xFD30_0000. |
| `LoadRuns.RunCharged` | src/elf.rs:156-226 | Any run of page loads into one space, finished or not: no other page changes, other processes are the same frames with the same contents, and every frame is accounted for but those of failed mappings and those that went into the kernel's tables; on slots the kernel's root leaves empty, no other space changes and only a failed mapping loses a frame. |
| `LoadRuns.MissingAfter` | src/elf.rs:183-194 | Loading one page lowers the number of frames a list of pages needs by exactly the page and the tables its path lacked, tables shared between pages counted once. |
| `LoadRuns.RunSucceedsIff` | src/elf.rs:148-226 | A run of page loads that stops at the first failure maps all its pages if and only if they are aligned, different and unmapped at the start and the frames for them and the tables they lack, each table counted once, are at most those free. |
| `LoadRuns.EmptyPool` | src/elf.rs:183-194 | Without a free frame a run of page loads maps nothing and changes nothing. |
| `Elf.SegmentEndCovers` | src/elf.rs:166-167 | The page range reaches the segment's end if and only if rounding up does not wrap. |
| `Elf.PagesHoldSegment` | src/elf.rs:166-167 | The pages of a nonempty segment are exactly those that hold a byte of it; one that ends within a page of 2^64 has none. |
| `Elf.PlanOfImage` | src/elf.rs:156-226 | The addresses an image is loaded at are page aligned, and their pages are those of its segments. |
| `Elf.CopyIsSegPage` | src/elf.rs:196-219 | The copy into a zeroed page gives exactly the segment's bytes of that page, file part then zeros. |
| `Elf.MapAndCopySegment` | src/elf.rs:156-226 | For any segment at any address, whether or not all of it can be mapped: the first n pages, all if and only if it succeeds, are freshly mapped with the segment's bytes and flags, and the run of page loads keeps and accounts for the rest as `LoadRuns.RunCharged` states. It succeeds if and only if the segment's pages are different, unmapped and affordable; then, with slots the kernel root leaves empty, no other space changes and no frame is lost. |
| `Elf.LoadedSegmentReads` | src/elf.rs:156-226 | Through the new table each byte of a segment reads its file byte or zero; the leaf is user, writable iff PF_W, executable iff PF_X. |
| `Elf.ImageReads` | src/elf.rs:89-153 | In a loaded image every byte of every segment reads as the file says, and a page of no segment translates as before. |
| `Elf.HeaderReads` | src/elf.rs:95-102 | A program header written as the gABI lays it out is read back as that segment. |
| `Elf.RefusalIff` | src/elf.rs:91-139 | A loadable header passes if and only if its sizes, file range and address range are admissible; each error is given for the first of them that is not; exactly the wrapping file ranges that pass the bounds check panic. |
| `Elf.LoadHeader` | src/elf.rs:89-153 | A refused header gives its error and changes nothing; one let through extends the loaded image by its segment, or stops because a page load of it could not be mapped, and for no other reason; in every case what was done so far is a run of page loads on pages of the headers seen. |
| `Elf.LoadElfToProcess` | src/elf.rs:29-153 | Loads if and only if the file header passes, no program header is refused, the entry is at or above 2^39 and the pages of all segments are different, unmapped and affordable; every failure has its own condition: the header's error, the first refused header's, a page not mapped, the entry. Success returns the file's entry point and loads exactly the loadable segments, on pairwise disjoint pages, every other page of every space keeping translation and contents; wherever it stops, every frame is accounted for and only pages of loadable segments were touched. |
| `Elf.LoadedIffAccepted` | src/elf.rs:29-153 | A file is loaded if and only if header, program headers and entry are accepted and every page load is mapped; the answer is its entry point. |
| `ElfFiles.HeaderCheckIff` | src/elf.rs:29-88 | On any file that starts with the fields of a 64-bit header, the check passes if and only if magic, class, byte order, type, machine and header table are in order, and each error names the first that is not. |
| `ElfFiles.AcceptedIff` | src/elf.rs:29-153 | A file with such headers is accepted if and only if its header is in order, its entry is at or above 2^39, and every loadable header has sizes, file range and address range in order. |
| `ElfFiles.SegmentsAre` | src/elf.rs:89-139 | The segments loaded are those the loadable program headers describe, in order, with the bytes of the file they name. |
| `Elf.AllocateUserStack` | src/task.rs:476-536 | The stack is four fresh zero pages below the stack top, user, writable, not executable; it is made if and only if they are unmapped and affordable; if not, the first n are mapped, and every frame is accounted for. |
| `Elf.BuildProcessImage` | src/task.rs:545-556 | The image of a new process is the file's segments and the stack, on pages of their own; it is built if and only if the file is accepted and all these pages are different, unmapped and affordable; if it cannot be built, every frame is accounted for. |
| `Scheduler.FirstFree` | src/task.rs:383-384 | The first Terminated slot: none before it is Terminated. |
| `Scheduler.TaskTable.Spawn` | src/task.rs:375-397 | The slot loop performs the spawn step, whose effect is `SchedulerRuns.SpawnEffect`. |
| `Scheduler.TaskTable.Exit` | src/task.rs:595-604 | Only the current slot becomes Terminated. |
| `Scheduler.TaskTable.RunSchedule` | src/task.rs:608-733 | The circular search loop performs the scheduling step: save, pick the nearest Ready slot, switch root, give back the root of a dead owner. |
| `Scheduler.TaskTable.SendMessage` | src/task.rs:286-308 | The slot loop performs the send step, whose outcomes and effect `SchedulerRuns.SendOutcome` and `SchedulerRuns.SendEffect` give. |
| `Scheduler.TaskTable.ReceiveMessage` | src/task.rs:311-330 | The slot loop performs the receive step, whose effect is `SchedulerRuns.ReceiveEffect`. |
| `SchedulerRuns.ScheduleEffect` | src/task.rs:608-733 | Slot by slot, what a scheduling step changes: nothing without a Ready slot; else the states, the saved pointer, the register and the root given back. |
| `SchedulerRuns.SpawnEffect` | src/task.rs:375-397 | Slot by slot, what a spawn changes: nothing if and only if no slot is Terminated; else the first Terminated slot becomes a Ready task with its index as id, its first frame, the root and ownership the mode calls for and ring 3 if and only if it is a process with a user stack, keeping its mailbox; the very first spawn starts slot 0 Running. |
| `SchedulerRuns.RingAsSpawned` | src/task.rs:184-187 | In every run a slot runs in ring 3 if and only if its last spawn was of a process with a user stack. |
| `SchedulerRuns.RootsFreedSafely` | src/task.rs:375-460 | In every run where roots are shared only by contexts that do not own them, each root is freed once per allocation, never while active or a live task's, and a dead owner is the current slot. |
| `SchedulerRuns.SharingAnOwnedRootFails` | src/task.rs:375-397 | Without that condition a run frees the root the hardware is translating through. |
| `SchedulerRuns.SharingAlwaysFails` | src/task.rs:375-397 | From every state with intact ownership, a thread that shares its spawner's owned root makes the next exit and scheduling step free a root still in use. |
| `SchedulerRuns.SpawnSafeIff` | src/task.rs:375-397 | When a spawn finds a slot, the exit and scheduling step after it free roots safely if and only if the caller does not share a root it owns. |
| `SchedulerRuns.SpawnKeepsRootIff` | src/task.rs:426-443 | A fresh root gets an owner if and only if some slot is Terminated. |
| `SchedulerRuns.UnownedStays` | src/task.rs:375-460 | A root that no slot owns is not freed by any step, and gets an owner only as the fresh root of a spawn. |
| `Spawning.FramesAfter` | src/task.rs:539-563 | After a root was built, in part or whole, the free frames are those of before less the frames of its space, the lost ones and tables of the kernel. |
| `Spawning.LeakIff` | src/task.rs:539-563 | Every frame taken has an owner afterwards, or is a table of the kernel, if and only if a task came to own the root and no frame was lost. |
| `Spawning.SpawnFromElf` | src/task.rs:539-563 | Create, load, stack, register. It succeeds if and only if the file is accepted, its pages and the stack's are different and unmapped in the root that is copied, the frames for them, their tables and the root are at most those free, and a slot is Terminated. Without a free frame it fails and changes nothing; else the free set is that of before less exactly the frames of the new space, the lost ones and the kernel's tables, and nothing leaks if and only if the call succeeds without losing a frame, as it does for files outside the kernel's half; other spaces are then kept in any case. |
| `Spawning.FitsBefore` | src/task.rs:539-556 | What fits into a clone is decided by the root it is made from and the frames free before. |
| `SchedulerRuns.PickNearest` | src/task.rs:621-626 | The search stops at the given Ready slot or strictly before it. |
| `SchedulerRuns.BoundedWaiting` | src/task.rs:621-626 | A slot that stays Ready is passed over by fewer scheduling calls than its circular distance, hence by fewer than MAX_TASKS, whatever else happens in between. |
| `SchedulerRuns.RunningIsCurrent` | src/task.rs:608-733 | In every run with nonzero stack pointers only the current slot is Running. |
| `SchedulerRuns.ZeroStackPointer` | src/task.rs:616-619 | A step keeps a single Running slot if and only if it does not switch away from a Running task with a zero pointer. |
| `SchedulerRuns.ResumesWhereLeft` | src/task.rs:608-733 | In every run a slot's saved pointer is the one recorded by its last switch-out while Running, or its initial frame since its last spawn. |
| `SchedulerRuns.SavedIffRunning` | src/task.rs:616-619 | A switch records the caller's pointer if and only if the caller was Running. |
| `SchedulerRuns.BlockingLosesPointer` | src/task.rs:311-330 | A task that receives from an empty mailbox is switched away without its pointer being recorded, whatever it is. |
| `SchedulerRuns.SendOutcome` | src/task.rs:286-308 | A message is delivered if and only if a live task of that id has an empty mailbox, refused as full if and only if such a task has a full one, and reported not found if and only if there is no such task. |
| `SchedulerRuns.SendEffect` | src/task.rs:286-308 | Only the addressed live slot changes, and only if its mailbox is empty: it holds the message with the sender's id, and is Ready if it was Blocked. |
| `SchedulerRuns.SendInRun` | src/task.rs:286-308 | The three outcomes hold in every state of every run, where at most one live slot has an id; a message not delivered changes nothing. |
| `SchedulerRuns.ReceiveEffect` | src/task.rs:311-330 | The caller gets what its own mailbox holds; the mailbox is empty afterwards, the caller Blocked if it was empty before, and no other slot changes. |
| `SchedulerRuns.MessagesConserved` | src/task.rs:286-330 | In every run, for every slot, the messages sent to it while it lived with an empty mailbox are those it received followed by the pending one, and a Blocked slot has nothing pending. |
| `SchedulerRuns.LiveIdsUnique` | src/task.rs:166-237 | Live tasks have different ids. |
| `SchedulerRuns.SpawnKeepsMailbox` | src/task.rs:166-237 | A new task starts with the mailbox its slot had. |
| `SchedulerRuns.DeadLetter` | src/task.rs:166-237 | A run in which a new task receives the message sent to the dead task of its slot. |
| `SchedulerRuns.OccupantMailIff` | src/task.rs:166-330 | In every run, since any state, a slot received and has pending the message then pending followed by those accepted since; exactly the latter if and only if none was pending. |
| `Kernel.FillKeeps` | src/vmm.rs:464-529 | Mapping a fresh page for one process outside the kernel's half keeps the memory invariant of all processes and every other space's translations and contents. |
| `Kernel.LowFillKeeps` | src/vmm.rs:464-529 | Mapping a page in the kernel's half, not for user code, keeps the memory invariant and the user half of every space; a failed mapping keeps every space whole. |
| `Kernel.FillIsolatesIff` | src/vmm.rs:464-529 | A mapped page leaves every other space alone if and only if it is outside the kernel's half; for addresses below 2^48, if and only if it is at or above 2^39. |
| `Kernel.ReachesAll` | src/vmm.rs:464-529 | A page mapped in the kernel's half appears in the kernel's space and in every process, writable by user code if so mapped, and its frame is accounted to no one. |
| `Kernel.FillKeepsIff` | src/vmm.rs:464-529 | A mapping keeps the memory invariant if and only if it is harmless: in the kernel's half not for user code, and outside it not through the kernel's root. |
| `Kernel.KernelFillSparesIff` | src/vmm.rs:464-529 | After a page was mapped through the kernel's own root, creating and tearing down a process spares the kernel's tables if and only if the page is in the kernel's half. |
| `Kernel.HarmfulInputs` | src/elf.rs:112-132 | Two inputs the code lets through that are not harmless: a user fault just above the identity map and a segment at 0x1_0000_0300_0000. |
| `Kernel.LoadIsolatesIff` | src/elf.rs:89-153 | A load leaves every other space alone if and only if no page of a segment is in the kernel's half. |
| `Kernel.StoreKeeps` | src/vmm.rs:631-645 | A store the page tables permit reaches a page of the storing process alone: no other space and no translation changes. |
| `Kernel.StoreReads` | src/vmm.rs:631-645 | After such a store an address of any space reads the byte stored if and only if it translates where the store went, and otherwise what it read before. |
| `Kernel.ReleaseKeeps` | src/syscall.rs:149-173 | Unmapping by one process keeps the invariant and every other space. |
| `Kernel.ReapKeeps` | src/task.rs:698-710 | Tearing one process down keeps the invariant for the others and every other space, and its slots are private as teardown assumes. |
| `Kernel.StepKeeps` | src/task.rs:595-733 | Every step of scheduler, loader, fault handler, user code or unmap whose mapping is harmless keeps the whole-kernel invariant, the user half of every address space but the one it works on, and the kernel's half too unless it maps a page there. |
| `Kernel.StepKeepsIff` | src/vmm.rs:464-529 | Of the steps that map a page, exactly the harmless ones keep the invariant; so do all steps that map none. |
| `Kernel.StartInv` | src/mmu.rs:106-128 | The invariant holds at boot on a kernel root that uses slot 0 only. |
| `Kernel.RunKeeps` | src/task.rs:595-733 | The invariant holds in every state of every run of harmless mappings, faults of kernel code in the kernel's half included, and every step of it isolates. |
| `Kernel.ActiveIsLive` | src/task.rs:629-630 | The active root is always the kernel's or that of a live process, never a freed one. |
| `Kernel.AccessIsLeaf` | src/vmm.rs:631-645 | In every reachable state, on either architecture, the path of a page of any space permits user code exactly what its leaf permits; so the range check, which looks at the leaf, agrees with the hardware on reads and writes. |
| `Kernel.ProcessIsolation` | src/vmm.rs:546-551 | Over any stretch of such a run in which no action works on a process, its user-half translations and page contents are unchanged; so is all of its space if no page appears in the kernel's half. |
| `Kernel.TablesGrow` | src/vmm.rs:108-132 | The kernel keeps all its tables over every run, and gains some only by mappings in its half. |
| `Kernel.AbandonedStays` | src/task.rs:539-563 | Over every run, a root that no slot owns and that is not handed to a task stays a root, without owner, and is never free. |
| `Kernel.BuildingUnowned` | src/task.rs:539-563 | A root that was created and not handed to a task has no owner. |
| `Kernel.AllFramesReturn` | src/vmm.rs:549-610 | Once every process of a run is gone and no root is being built, the free frames are exactly those of boot less the lost ones and the tables of the kernel's half; without mappings there, exactly those of boot less the frames lost in failed mappings. |
| `Kernel.KernelHalfShared` | src/memory.rs:446-484 | In every reachable state all spaces translate the first 2^39 bytes as the kernel's root does. |
| `KernelCalls.CreateRoot` | src/memory.rs:446-484 | Cloning the kernel's root on the machine is a creation step, or none if and only if no frame is free. |
| `KernelCalls.PageFault` | src/vmm.rs:464-529 | Any fault below the upper half served by the handler is a mapping step of the active space at the faulting page, writable and executable, handled if and only if it maps; a handled one keeps the invariant if and only if it is harmless. |
| `KernelCalls.LoadPage` | src/elf.rs:183-194 | Mapping a page for a root being built, at any address, is a mapping step; one that maps keeps the invariant if and only if it is harmless. |
| `KernelCalls.CopyPage` | src/elf.rs:212-217 | The loader's write into a page of a root being built is a copying step. |
| `KernelCalls.Munmap` | src/syscall.rs:149-173 | An unmap by a running task returns 0 if and only if that is a user process, the range is of whole pages and it may read all of them; it then is a release step of exactly these pages of the space its slot records, and otherwise changes nothing. |
| `KernelCalls.SpawnTask` | src/task.rs:375-397 | Spawning on the task table is a spawn step that takes the root from those being built, and succeeds if and only if a slot is Terminated. |
| `KernelCalls.ExitTask` | src/task.rs:595-604 | Exiting is an exit step. |
| `KernelCalls.SendFrom` | src/task.rs:286-308 | Sending is a send step and answers with its outcome. |
| `KernelCalls.ReceiveFor` | src/task.rs:311-330 | Receiving is a receive step and returns what the running task's mailbox held. |
| `KernelCalls.Tick` | src/task.rs:608-733 | A tick, with the switch of roots and the teardown of a dead owner's space on the machine, is a scheduling step and returns the stack pointer it selects; teardown's preconditions follow from the invariant. |
| `KernelCalls.LiftLoads` | src/elf.rs:156-226 | A run of page loads outside the kernel's half into a root being built is a run of the whole-kernel machine, and loses the same frames. |
| `KernelCalls.HighFits` | src/task.rs:539-556 | For pages outside the kernel's half, whether an image fits into a clone of the kernel's root depends on its pages and the number of free frames alone: one for the root, one for each page, one for each table, all different. |
| `KernelCalls.Launch` | src/task.rs:539-563 | Spawning from a file outside the kernel's half is a run of the whole-kernel machine: nothing without a free frame; else a root is created, pages of it are loaded and, if and only if file and pool allow the whole image, it is handed to a task. It succeeds if and only if they do and a slot is Terminated; then the image is the file's and the stack, no frame is lost and the root has an owner, and otherwise it has none. |
| `KernelCalls.LoadFilled` | src/elf.rs:183-219 | Mapping and filling a page of a root being built is a run of the whole-kernel machine: the mapping step at that address and, if it mapped outside the kernel's half, the copying step. |
| `KernelCalls.Perform` | src/task.rs:539-733 | Each call, loading and spawning from a file included, changes table and machine by exactly the steps of the whole-kernel machine that the call stands for. |
| `KernelCalls.RunningTaskCan` | src/task.rs:375-733 | A running task that does not own its root can make any call, on roots that were built and harmless pages. |
| `KernelCalls.PerformAll` | src/task.rs:539-733 | Every list of calls is a run of the whole-kernel machine that ends in the state of table and machine: call by call, the steps it stands for if it can be made in the state it finds, and none otherwise. |
| `KernelCalls.ServeFromBoot` | src/mmu.rs:106-128 | From the state the boot-time mapping leaves, any list of calls is served as such a run; no frame comes from elsewhere, and once no process and no root being built is left the bitmap's free frames are those of that state less the lost ones and the kernel's new tables. |
| `KernelCalls.RunFromReset` | src/main.rs:141-168 | From a bitmap with every frame reserved, with four frames usable: fill and protect the pool, build the kernel's root, serve any calls; no table, page or free frame holds a byte of the low megabyte, kernel, heap or ramdisk, and once nothing is left every boot frame is free but the lost ones and the kernel's tables. |
| `Heap.ReadWritten` | src/memory.rs:198-211 | A pointer written into a freed block is the pointer read back. |
| `Heap.BucketIsLeast` | src/memory.rs:164-167 | A request goes to the smallest power-of-two bucket of 8 to 2048 bytes that is no smaller than its size and its alignment, and to none if and only if 2048 is smaller than one of them. |
| `Heap.BucketSizes` | src/memory.rs:164-167 | The nine buckets are of 8, 16, 32, 64, 128, 256, 512, 1024 and 2048 bytes. |
| `Heap.ListsIntact` | src/memory.rs:173-196 | Whatever is written inside a block that is on no list, every free list stays intact. |
| `Heap.ClientWriteKeeps` | src/memory.rs:173-196 | Clients may write any byte of their live blocks. |
| `Heap.PopKeeps` | src/memory.rs:180-186 | Reuse hands out the head of the list, a block of the right size that is not live, and keeps the invariant. |
| `Heap.BumpKeeps` | src/memory.rs:150-160 | A bumped block is new and beyond every carved one; a failed bump changes nothing. |
| `Heap.DeallocKeeps` | src/memory.rs:198-211 | Freeing a live block puts it on its list and keeps the invariant. |
| `Heap.DeallocBytes` | src/memory.rs:198-211 | Freeing a block changes no byte of a block that stays live. |
| `Heap.LiveApart` | src/memory.rs:150-211 | Live blocks are pairwise disjoint over the sizes their owners asked for, and lie inside the heap with room for a link. |
| `Heap.AllocKeeps` | src/memory.rs:173-196 | An allocation returns null and changes nothing, or a block nobody holds whose bytes, as many as were asked for, are zero, inside the heap and disjoint from every other live block over its own size, with every byte of every live block as it was; it keeps the invariant. |
| `Heap.AllocInRun` | src/memory.rs:173-196 | Every allocation of such a run keeps that promise. |
| `Heap.BumpExtent` | src/memory.rs:150-160 | A bump moves the mark by at least the size asked for and by less than max(size, 8) plus the alignment, past the block and not past the heap's end; a failed one changes nothing. |
| `Heap.AllocNullIff` | src/memory.rs:150-196 | Null is returned if and only if the bucket's list is empty and no aligned address leaves room for the size, and for a pointer, in the rest of the heap. |
| `Heap.FreeThenAlloc` | src/memory.rs:173-211 | The block freed last into a bucket is the one reused first, and reusing it puts lists and mark back as they were. |
| `Heap.LargeNotReused` | src/memory.rs:206-210 | Freeing a block larger than every bucket changes nothing. |
| `Heap.BytesPersist` | src/memory.rs:150-211 | In every such run a byte of a live block changes only when the block is freed or that byte is written, whatever is allocated, freed and written meanwhile. |
| `Heap.ListedApart` | src/memory.rs:150-211 | A listed block overlaps no live block and no other listed block, and lies inside the heap. |
| `Heap.HeapRunSafe` | src/memory.rs:150-211 | In every run where requests of one bucket agree on size, the invariant behind these facts holds. |
| `Heap.MixedSizesOverlap` | src/memory.rs:150-160 | For any two different sizes sharing a bucket there is a run in which a block handed out overlaps a live one. |
| `HeapAlignment.AllocAligned` | src/memory.rs:173-196 | The physical address of a new block is aligned as requested; that of a reused one as it was carved, hence as requested if that is a multiple; the pointer itself if and only if the direct map's offset is aligned too. |
| `HeapAlignment.AlignedAbove` | src/memory.rs:150-160 | Adding the direct map's offset keeps an alignment if and only if the offset has it. |
| `HeapAlignment.MixedAlignments` | src/memory.rs:173-196 | For any two alignments sharing a bucket, one a proper multiple of the other, there is a run in which a block handed out is misaligned. |
| `HeapAlignment.AlignedRun` | src/memory.rs:150-211 | In every run where requests of one bucket agree on size and alignment, every block handed out is physically aligned as requested, and so is its pointer if and only if the direct map's offset is. |
| `Heap.FastBlockAllocator.FallbackAlloc` | src/memory.rs:150-160 | The bump in place is the bump step. |
| `Heap.FastBlockAllocator.Alloc` | src/memory.rs:173-196 | The allocation in place, zero-filling loop included, is the allocation step: every byte asked for is zero, no byte outside the block changes, and a failure changes no byte. |
| `Heap.FastBlockAllocator.Dealloc` | src/memory.rs:198-211 | The deallocation in place is the deallocation step. |
| `InputRing.Enqueue` | src/interrupts.rs:13-23 | Appends the byte to the buffered bytes, or drops it when 127 are buffered. |
| `InputRing.Dequeue` | src/interrupts.rs:26-38 | Removes and returns the oldest buffered byte, or nothing when there is none. |
| `InputRing.InputBuffer.EnqueueByte` | src/interrupts.rs:13-23 | The update in place is the enqueue step. |
| `InputRing.InputBuffer.DequeueByte` | src/interrupts.rs:26-38 | The update in place is the dequeue step. |
| `InputRing.FifoUnderInterleaving` | src/interrupts.rs:13-38 | Under every interleaving of the single loads and stores, bytes taken followed by bytes buffered are the bytes accepted, in order, at most 127 of them buffered. |
| `InputRing.DropsOnlyWhenFull` | src/interrupts.rs:17-30 | A byte is dropped if and only if the ring is full, and a read is empty-handed if and only if it is empty, when the other side's index is loaded. |
| `InputRing.StepsMakeCalls` | src/interrupts.rs:13-38 | The single steps of an uninterrupted call add up to the call. |
| `Fat32.PartitionIsSubDisk` | src/block.rs:68-80 | Reading through a partition offset is reading the sub-disk. |
| `Fat32.WriteThenRead` | src/block.rs:30-50 | A written sector reads back and no other sector changes, through any nesting of partitions. |
| `Fat32.RamBlockDevice.Read` | src/block.rs:31-39 | Reads the sector, or fails beyond the end. |
| `Fat32.RamBlockDevice.Write` | src/block.rs:41-50 | Replaces exactly the sector, or fails and changes nothing. |
| `Fat32.MountRoundTrip` | src/fs/fat32.rs:100-138 | Mounting recovers the geometry a boot sector describes, whatever its other bytes, and fails if and only if the FATs have no sectors. |
| `Fat32.MountIff` | src/fs/fat32.rs:100-120 | A disk mounts if and only if its first sector can be read, ends in 0x55 0xAA, gives 512 bytes per sector and the FATs at least one sector. |
| `Fat32.FatIsAnArray` | src/fs/fat32.rs:157-172 | The sector-wise lookup reads entry `cluster` of one flat array of four-byte entries, upper four bits ignored. |
| `Fat32.EndMarks` | src/fs/fat32.rs:201 | Of the 28-bit entry values, those that name no data cluster are 0, 1 and the eight from 0x0FFF_FFF8 on. |
| `Fat32.ClusterIsSlice` | src/fs/fat32.rs:152-155 | A cluster is one stretch of the disk's bytes, readable if and only if it lies on the disk. |
| `Fat32.ClustersApart` | src/fs/fat32.rs:152-155 | Clusters fill the data area from cluster 2 on, in order, without overlap or gap. |
| `Fat32.ReadCluster` | src/fs/fat32.rs:174-192 | The sector loop fills the buffer with the cluster's bytes; it fails exactly when the buffer is short or a sector is unreadable. |
| `Fat32.ReadFileContent` | src/fs/fat32.rs:194-215 | With a sector per cluster the loop computes the chain's bytes and reads no more clusters than the size calls for, even on a cyclic FAT; with none it returns nothing, or fails, as the chain ends. |
| `Fat32.ClustersForCovers` | src/fs/fat32.rs:194-215 | That bound is max(1, ceil(size / cluster size)). |
| `Fat32.FileIsChainPrefix` | src/fs/fat32.rs:194-215 | With a chain long enough the result is exactly the first `size` bytes of the concatenated clusters. |
| `Fat32.FullLengthIff` | src/fs/fat32.rs:194-215 | A successful read is as long as a nonempty file if and only if the chain does not end early. |
| `Fat32.PartitionedVolume` | src/block.rs:68-80 | A volume in a partition mounts and reads as the sub-disk would. |
| `Fat32.NeverStuck` | src/fs/fat32.rs:194-215 | With a sector per cluster every further round has fewer bytes to go. |
| `Fat32.RoundsBounded` | src/fs/fat32.rs:194-215 | With a sector per cluster there are at most as many rounds as bytes. |
| `Fat32.GoesOnIff` | src/fs/fat32.rs:194-215 | With zero sectors per cluster and bytes to read, the loop goes on after n rounds if and only if the chain has more than n clusters. |
| `Fat32.ReadEndsIff` | src/fs/fat32.rs:194-215 | The loop ends if and only if clusters have sectors, or nothing is to be read, or the chain reaches an end mark or an unreadable entry. |
| `Fat32.CycleNeverEnds` | src/fs/fat32.rs:157-172 | A chain that enters a cycle of any length never ends. |
| `Ahci.NineSuffice` | src/drivers/ahci.rs:304-336 | At most nine descriptors for up to 32768 bytes at any address; a full-size buffer needs all nine if and only if it is not page aligned. |
| `Ahci.ChunksTile` | src/drivers/ahci.rs:304-336 | The pieces are nonempty, each within one page, contiguous, and end where the buffer ends. |
| `Ahci.EvenChunks` | src/drivers/ahci.rs:304-336 | Pieces of an even buffer at an even address have even sizes, as the descriptor format demands. |
| `Ahci.PrdtIsChunks` | src/drivers/ahci.rs:304-336 | One descriptor per piece, with the piece's physical address and byte count. |
| `Ahci.DescriptorSays` | src/drivers/ahci.rs:326-330 | A descriptor holds the address, the byte count and the interrupt bit, and nothing else. |
| `Ahci.BuildPrdt` | src/drivers/ahci.rs:304-336 | The table-filling loop writes exactly those descriptors, or reports a buffer too large or an untranslatable address. |
| `Ahci.PrdtVisitsBuffer` | src/drivers/ahci.rs:304-336 | The descriptors visit exactly the physical bytes behind the buffer, in order. |
| `Ahci.PackedLba` | src/drivers/ahci.rs:373-380 | The six command bytes give back the sector address modulo 2^48, the address itself if and only if it is below. |
| `Ahci.PackedCount` | src/drivers/ahci.rs:379-380 | The two count bytes give back the sector count modulo 2^16, the count itself if and only if it is below. |
| `Ahci.Port.IssueCommand` | src/drivers/ahci.rs:338-417 | One command moves as many sectors as its count bytes say, which are the buffer's, between disk and memory through the descriptors, or moves nothing; it succeeds if and only if the buffer has descriptors and the device does not fail it. |
| `Ahci.TransferMore` | src/drivers/ahci.rs:435-454 | Two adjacent transfers are one transfer. |
| `Ahci.TransferMeaning` | src/drivers/ahci.rs:435-454 | After a transfer buffer and disk hold the same bytes, and the rest of memory and disk is untouched. |
| `Ahci.Port.RwSectors` | src/drivers/ahci.rs:435-454 | The commands together are one transfer of the whole buffer at [lba, lba+n), or of the part before the first failing command; it succeeds if and only if every command does, and the error cases say where it stops. |
| `Madt.EntryDecodes` | src/hal/madt.rs:209-268 | Every record of section 5.2.12 of the ACPI specification, encoded with any reserved bits and bytes and followed by any more, is read back: CPUs if and only if usable, every other kind whole, nothing of another kind; interrupt flags included. |
| `Madt.ReservedSettings` | src/hal/madt.rs:52-64 | Reserved polarity and trigger settings are read as the bus's own. |
| `Madt.ShortEntries` | src/hal/madt.rs:209-268 | An entry shorter than its type's layout says nothing. |
| `Madt.EntriesAreTheTable` | src/hal/madt.rs:192-280 | On any bytes the entries walked are the table's own bytes after the header, none beyond its end. |
| `Madt.EntriesRoundTrip` | src/hal/madt.rs:192-280 | A serialised list is read back entry by entry, whatever precedes and follows it. |
| `Madt.WalkMeaning` | src/hal/madt.rs:154-280 | The capped step-by-step walk finds the usable CPUs, I/O APICs and overrides in order up to their caps, and the last address override. |
| `Madt.ParsedSerialised` | src/hal/madt.rs:174-292 | On a well-formed table behind a 44-byte header the parse is exactly that, up to 64 CPUs, 8 I/O APICs and 24 overrides. |
| `Madt.UnknownEntryIgnored` | src/hal/madt.rs:269-276 | Inserting an entry of unknown type anywhere changes nothing. |
| `Madt.MadtData.PushCpu` | src/hal/madt.rs:154-167 | Appends a usable CPU while there is room, and nothing else. |
| `Madt.MadtData.Parse` | src/hal/madt.rs:174-292 | On any bytes the cursor loop ends with the parse of the table; a table shorter than its fixed header changes nothing. |
| `Madt.MadtData.IsoForIrq` | src/hal/madt.rs:145-149 | The first recorded override of an ISA interrupt, or none if there is none. |
| `Ustar.FileSize` | src/ramdisk.rs:41-53 | The digit loop computes the octal value up to the first zero byte or space. |
| `Ustar.OctalRoundTrip` | src/ramdisk.rs:41-53 | A size written in octal and ended by a zero byte, a space or the field's end is read back. |
| `Ustar.OctalSkips` | src/ramdisk.rs:41-53 | A byte that is neither a digit nor ends the field is passed over, wherever it stands. |
| `Ustar.NameRoundTrip` | src/ramdisk.rs:56-59 | A NUL-free name followed by NUL or filling its field is read back. |
| `Ustar.TextIff` | src/ramdisk.rs:56-59 | A name is accepted as text if and only if it is a sequence of Unicode scalar values in the encoding of section 3 of RFC 3629. |
| `Ustar.AsciiIsText` | src/ramdisk.rs:56-59 | Every ASCII name is text. |
| `Ustar.CutOffIff` | src/ramdisk.rs:180-196 | A file is given its bytes, as many as its size, if and only if the archive holds them all; one that is cut off keeps its size and gets none. |
| `Ustar.TarIterator.Next` | src/ramdisk.rs:162-204 | On any bytes yields the files from the offset on, one by one, always advancing, and stays put at the end. |
| `Ustar.Find` | src/ramdisk.rs:138-140 | The first file of that name, or none if there is none. |
| `Ustar.MemberRoundTrip` | src/ramdisk.rs:162-204 | A member is read back, name, size, data and type, wherever it stands and whatever the ignored fields hold. |
| `Ustar.ArchiveRoundTrip` | src/ramdisk.rs:162-204 | Iterating over a serialised list yields exactly its members in order, then whatever follows. |
| `Ustar.FilesOfArchive` | src/ramdisk.rs:162-204 | A whole archive yields exactly its members. |
| `Ustar.OpensIffNonempty` | src/ramdisk.rs:111-125 | An archive is accepted if and only if it has a member. |

## Left out

- Assembly, boot, descriptor tables, TLB and barrier instructions, MMU registers: hardware effects.
- UART, timers, APIC and I/O APIC programming, ATA port I/O, PCI and SMP start-up: device I/O.
- Shell, framebuffer, fonts, VFS routing, file descriptors and adapters: thin or user interface.
- FAT directory lookup and names: they depend on Unicode case mapping, and their cluster loop has no bound on a cyclic chain.
- `Spinlock` and `Mutex`: critical sections are single steps.
- Huge and block leaves and bootloader-built tables: `map_page` never makes them.
- The bit layout of page-table entries, cache attributes and device memory types; the restriction bits of AArch64 table descriptors, which the code never sets.
- Memory ordering: the ring is proved under interleavings of sequentially consistent loads and stores.
- The AHCI completion flags, time-outs and slots: a command either moves its bytes or fails; a failed command is modelled as moving nothing.
- The TLS and register contents of a task context: a task is its stack pointer.
- HandlePageFault: the root consulted for the upper half on AArch64 is taken to be a page table; the register that should hold it is never set up (src/mmu.rs:145-154), and what a fault there finds in it is not modelled.
- StepKeeps: roots are clones of the kernel's root, as on AArch64; threads are spawned only by contexts that do not own their root. That its mappings are harmless is necessary for the steps that map a page (`Kernel.StepKeepsIff`); for a mapping through the kernel's root outside slot 0 that fails it is only shown sufficient.
- PageFault: addresses below the upper half; the others are `UserMemory.HandlePageFault`.
- SpawnTask: threads are spawned by contexts that do not own their root; the others are `SchedulerRuns.SharingAlwaysFails`.
- Launch: files none of whose pages is in the kernel's half; what the others do is `Kernel.LoadIsolatesIff`, and `Spawning.SpawnFromElf` is for all.
- PerformAll: calls that map in the kernel's half for user code, hand over roots that were not built, or share an owned root are left out; user stores are actions of the machine but not calls, since user code makes them.
- SpawnFromElf: the root copied holds tables of the kernel only, as on AArch64 always; on x86_64 a process that spawns one shares its own tables with it, which the model of trees does not cover.
- InitKernelRoot: how many frames the full map needs is not counted; it is stated when three stay free.
- ReadFileContent: with zero sectors per cluster, stated for chains that end; for others the loop does not return (`Fat32.ReadEndsIff`).
- HeapRunSafe: stated for runs whose requests agree on size within a bucket; that this is needed is `Heap.MixedSizesOverlap`.
- ProtectedCoversBytes: stated for ranges that do not end within a page of 2^64; that this is needed is `Pmm.CoveringIff`.
- InitFromMemoryMap: the statement in bytes, as that of ReclaimBootMemory, is for regions with aligned bases; what the others give is `Pmm.EntryInBytes` and `Pmm.GivenInsideIff`.
- BootPool: the statement in bytes is also for nonempty ranges, since an empty one that starts inside a page keeps that page.
- BootAndServe: as for ProtectedCoversBytes, and the reclaimed regions are disjoint from usable and protected frames and from frames given back before, which the code leaves to the memory map and its callers.
- RwSectors: the transfer lies on the disk and below 2^48 sectors; what a device does beyond its end is not modelled.
- Find: names that are not UTF-8 are listed under a fixed placeholder, as in the code, and so are not found by their bytes.
